/** The process storage: what a finder detects is compared with what is stored, known processes keep their
    context, and listeners are told of the difference. */
module Storage {
  import opened Options
  import opened Seqs

  datatype Entity = Entity(layer: string, service: string, instance: string, process: string, labels: seq<string>)

  /** A detected process; one without an entity is the same as none. */
  datatype Detected = Detected(pid: int, entity: Option<Entity>)

  /** A stored process. The id is the identity of the context object. */
  datatype Context = Context(id: nat, process: Detected)

  predicate SameWith(a: Option<Entity>, b: Option<Entity>) {
    a.Some? && b.Some? && a.value.(labels := []) == b.value.(labels := [])
  }

  /** The same process: same pid and same entity, labels aside. */
  predicate Matches(a: Detected, b: Detected) {
    a.pid == b.pid && SameWith(a.entity, b.entity)
  }

  /** No two of these are the same process. */
  ghost predicate Unique(ds: seq<Detected>) {
    forall i, j | 0 <= i < j < |ds| :: !Matches(ds[i], ds[j])
  }

  function Processes(cs: seq<Context>): seq<Detected> {
    seq(|cs|, i requires 0 <= i < |cs| => cs[i].process)
  }

  ghost function AsSet(cs: seq<Context>): set<Context> {
    set c | c in cs
  }

  ghost predicate DistinctIds(cs: seq<Context>) {
    forall i, j | 0 <= i < j < |cs| :: cs[i].id != cs[j].id
  }

  function FirstMatch(cs: seq<Context>, d: Detected): (r: Option<Context>)
    ensures r.Some? ==> r.value in cs && Matches(d, r.value.process)
    ensures r.None? ==> forall c | c in cs :: !Matches(d, c.process)
  {
    if cs == [] then None
    else if Matches(d, cs[0].process) then Some(cs[0])
    else FirstMatch(cs[1..], d)
  }

  /** The context of detected process `k` after a sync: the stored one that matches, or a new one. */
  function SyncedAt(existing: seq<Context>, ds: seq<Detected>, nextId: nat, k: nat): Context
    requires k < |ds|
  {
    match FirstMatch(existing, ds[k])
    case Some(c) => c
    case None => Context(nextId + k, ds[k])
  }

  /** The stored list after a sync: one context per detected process, in order. */
  function Synced(existing: seq<Context>, ds: seq<Detected>, nextId: nat): seq<Context> {
    seq(|ds|, k requires 0 <= k < |ds| => SyncedAt(existing, ds, nextId, k))
  }

  datatype Operate = Add | Delete
  datatype Event = Event(operate: Operate, pid: int, contexts: seq<Context>)

  /** The event builder: contexts by pid. */
  type Builder = map<int, seq<Context>>

  function AddProcess(b: Builder, c: Context): Builder {
    var pid := c.process.pid;
    b[pid := (if pid in b then b[pid] else []) + [c]]
  }

  ghost predicate Holds(b: Builder, c: Context) {
    c.process.pid in b && c in b[c.process.pid]
  }

  /** The builder has exactly the contexts of `cs`, each under its pid. */
  ghost predicate Collects(b: Builder, cs: set<Context>) {
    && (forall c :: Holds(b, c) <==> c in cs)
    && (forall pid, c | pid in b && c in b[pid] :: c.process.pid == pid)
    && (forall pid | pid in b :: b[pid] != [])
  }

  lemma CollectsMore(b: Builder, cs: set<Context>, c: Context)
    requires Collects(b, cs)
    ensures Collects(AddProcess(b, c), cs + {c})
  {
    var b' := AddProcess(b, c);
    forall x ensures Holds(b', x) <==> x in cs + {c} {
      if x.process.pid == c.process.pid && x.process.pid in b {
        assert x in b'[x.process.pid] <==> x in b[x.process.pid] || x == c;
      }
    }
  }

  /** One event per pid of the builder, in some order. */
  ghost predicate Announces(events: seq<Event>, operate: Operate, b: Builder) {
    && (forall e | e in events :: e.operate == operate && e.pid in b && e.contexts == b[e.pid])
    && (forall pid | pid in b :: exists e :: e in events && e.pid == pid)
    && (forall i, j | 0 <= i < j < |events| :: events[i].pid != events[j].pid)
  }

  /** Applying the events of a sync to the stored set gives the new set. */
  lemma EventsGiveNewSet(existing: seq<Context>, ds: seq<Detected>, nextId: nat, added: set<Context>, deleted: set<Context>)
    requires added == Added(existing, ds, nextId) && deleted == Deleted(existing, ds, nextId)
    ensures AsSet(existing) - deleted + added == AsSet(Synced(existing, ds, nextId))
  {
    var next := Synced(existing, ds, nextId);
    forall c | c in next ensures c in AsSet(existing) - deleted + added {
      var k :| 0 <= k < |next| && next[k] == c;
      assert c == SyncedAt(existing, ds, nextId, k);
    }
    forall c | c in AsSet(existing) - deleted + added ensures c in next {
      if c in added {
        var k: nat :| k < |ds| && FirstMatch(existing, ds[k]).None? && c == Context(nextId + k, ds[k]);
        assert next[k] == c;
      } else {
        var k :| 0 <= k < |ds| && FirstMatch(existing, ds[k]) == Some(c);
        assert next[k] == c;
      }
    }
  }

  ghost function Added(existing: seq<Context>, ds: seq<Detected>, nextId: nat): set<Context> {
    set k: nat | k < |ds| && FirstMatch(existing, ds[k]).None? :: Context(nextId + k, ds[k])
  }

  ghost function Deleted(existing: seq<Context>, ds: seq<Detected>, nextId: nat): set<Context> {
    set c | c in existing && forall k | 0 <= k < |ds| :: FirstMatch(existing, ds[k]) != Some(c)
  }

  lemma SyncedMore(existing: seq<Context>, ds: seq<Detected>, d: Detected, nextId: nat)
    ensures var f := FirstMatch(existing, d);
      && Synced(existing, ds + [d], nextId) == Synced(existing, ds, nextId) + [if f.Some? then f.value else Context(nextId + |ds|, d)]
      && (f.None? ==> Added(existing, ds + [d], nextId) == Added(existing, ds, nextId) + {Context(nextId + |ds|, d)})
      && (f.Some? ==> Added(existing, ds + [d], nextId) == Added(existing, ds, nextId))
      && Deleted(existing, ds + [d], nextId) == Deleted(existing, ds, nextId) - (if f.Some? then {f.value} else {})
  {
    var all, f := ds + [d], FirstMatch(existing, d);
    assert all[|ds|] == d && forall k | 0 <= k < |ds| :: all[k] == ds[k];
    hide FirstMatch;
    forall c | c in Added(existing, ds, nextId) ensures c in Added(existing, all, nextId) {
      var k: nat :| k < |ds| && FirstMatch(existing, ds[k]).None? && c == Context(nextId + k, ds[k]);
      assert FirstMatch(existing, all[k]).None? && c == Context(nextId + k, all[k]);
    }
    assert f.None? ==> FirstMatch(existing, all[|ds|]).None?;
  }

  lemma MatchesIsPartialEquivalence(a: Detected, b: Detected, c: Detected)
    ensures Matches(a, b) ==> Matches(b, a) && Matches(a, a)
    ensures Matches(a, b) && Matches(b, c) ==> Matches(a, c)
  {
  }

  /** What makes two processes the same: the pid, and every part of the entity but its labels. */
  lemma MatchesIff(a: Detected, b: Detected)
    ensures Matches(a, b) <==>
      && a.pid == b.pid && a.entity.Some? && b.entity.Some?
      && a.entity.value.layer == b.entity.value.layer && a.entity.value.service == b.entity.value.service
      && a.entity.value.instance == b.entity.value.instance && a.entity.value.process == b.entity.value.process
  {
  }

  /** Each detected process has, at its place, a stored context that matches it, or a new one of its own if none does. */
  lemma SyncedEach(existing: seq<Context>, ds: seq<Detected>, nextId: nat, k: nat)
    requires k < |ds|
    ensures |Synced(existing, ds, nextId)| == |ds|
    ensures var c := Synced(existing, ds, nextId)[k];
      if exists x :: x in existing && Matches(ds[k], x.process) then c in existing && Matches(ds[k], c.process)
      else c.process == ds[k] && c.id == nextId + k
  {
  }

  /** Announced as added is exactly what is in the new list and was not stored, as deleted exactly what was stored and is not
      in the new list. */
  lemma ExactlyTheDifference(existing: seq<Context>, ds: seq<Detected>, nextId: nat, c: Context)
    requires forall x | x in existing :: x.id < nextId
    ensures c in Added(existing, ds, nextId) <==> c in Synced(existing, ds, nextId) && c !in existing
    ensures c in Deleted(existing, ds, nextId) <==> c in existing && c !in Synced(existing, ds, nextId)
  {
    var synced := Synced(existing, ds, nextId);
    assert forall k | 0 <= k < |ds| :: synced[k] == SyncedAt(existing, ds, nextId, k);
    if c in synced {
      var k :| 0 <= k < |ds| && synced[k] == c;
    }
    if c in existing && c !in Deleted(existing, ds, nextId) {
      var k :| 0 <= k < |ds| && FirstMatch(existing, ds[k]) == Some(c);
      assert synced[k] == c;
    }
    if c in Added(existing, ds, nextId) {
      var k: nat :| k < |ds| && FirstMatch(existing, ds[k]).None? && c == Context(nextId + k, ds[k]);
      assert synced[k] == c;
    }
  }

  /** With unique stored processes a sync keeps every context whose process was detected again, and the new
      list is unique exactly when the detected processes were. */
  lemma SyncUnique(existing: seq<Context>, ds: seq<Detected>, nextId: nat)
    requires Unique(Processes(existing))
    ensures Unique(Processes(Synced(existing, ds, nextId))) <==> Unique(ds)
    ensures forall c, k | c in existing && 0 <= k < |ds| && Matches(ds[k], c.process) :: Synced(existing, ds, nextId)[k] == c
  {
    var next := Synced(existing, ds, nextId);
    forall i, j | 0 <= i < j < |ds| ensures Matches(Processes(next)[i], Processes(next)[j]) <==> Matches(ds[i], ds[j]) {
      assert next[i] == SyncedAt(existing, ds, nextId, i) && next[j] == SyncedAt(existing, ds, nextId, j);
    }
    forall c, k | c in existing && 0 <= k < |ds| && Matches(ds[k], c.process) ensures next[k] == c {
      FirstMatchIs(existing, ds[k], c);
    }
  }

  lemma FirstMatchIs(existing: seq<Context>, d: Detected, c: Context)
    requires Unique(Processes(existing)) && c in existing && Matches(d, c.process)
    ensures FirstMatch(existing, d) == Some(c)
  {
    var f := FirstMatch(existing, d).value;
    var i :| 0 <= i < |existing| && existing[i] == f;
    var j :| 0 <= j < |existing| && existing[j] == c;
    assert Matches(Processes(existing)[i], Processes(existing)[j]);
    assert Matches(Processes(existing)[j], Processes(existing)[i]);
  }

  /** The contexts added for detected processes of which there is none yet; with a process detected twice the
      second finds the context of the first. */
  function Newcomers(existing: seq<Context>, ds: seq<Detected>, nextId: nat): seq<Context> {
    if ds == [] then []
    else
      var before := Newcomers(existing, ds[..|ds| - 1], nextId);
      var d := ds[|ds| - 1];
      before + if FirstMatch(existing + before, d).None? then [Context(nextId + |before|, d)] else []
  }

  lemma NoNewcomers(existing: seq<Context>, detected: seq<Option<Detected>>, nextId: nat)
    ensures Newcomers(existing, Present(detected[..0]), nextId) == [] && existing + [] == existing
  {
  }

  lemma NewcomersNext(existing: seq<Context>, ds: seq<Detected>, d: Detected, nextId: nat)
    ensures var before := Newcomers(existing, ds, nextId);
      && (FirstMatch(existing + before, d).None? ==>
            Newcomers(existing, ds + [d], nextId) == before + [Context(nextId + |before|, d)])
      && (FirstMatch(existing + before, d).Some? ==> Newcomers(existing, ds + [d], nextId) == before)
  {
    hide FirstMatch;
    assert (ds + [d])[..|ds|] == ds;
  }

  /** Added are exactly the detected processes that match neither a stored context nor one added before them, in order. */
  ghost predicate AreNewcomers(at: seq<nat>, newcomers: seq<Context>, existing: seq<Context>, ds: seq<Detected>, nextId: nat) {
    && Places(at, |ds|) && |newcomers| == |at|
    && (forall i | 0 <= i < |at| :: newcomers[i] == Context(nextId + i, ds[at[i]]))
    && (forall k: nat | k < |ds| :: k in at <==> NewAmong(at, existing, ds, k))
  }

  ghost predicate NewAmong(at: seq<nat>, existing: seq<Context>, ds: seq<Detected>, k: nat)
    requires k < |ds|
  {
    (forall c | c in existing :: !Matches(ds[k], c.process)) && forall j: nat | j < k && j in at :: !Matches(ds[k], ds[j])
  }

  lemma {:induction false} NewcomersAre(existing: seq<Context>, ds: seq<Detected>, nextId: nat) returns (at: seq<nat>)
    ensures AreNewcomers(at, Newcomers(existing, ds, nextId), existing, ds, nextId)
    decreases |ds|
  {
    hide FirstMatch, AreNewcomers;
    if ds == [] {
      at := [];
      NoneNew(existing, nextId);
    } else {
      var n := |ds| - 1;
      at := NewcomersAre(existing, ds[..n], nextId);
      assert ds[..n] + [ds[n]] == ds;
      NewcomersNext(existing, ds[..n], ds[n], nextId);
      NewcomerMore(at, Newcomers(existing, ds[..n], nextId), existing, ds, nextId);
      if FirstMatch(existing + Newcomers(existing, ds[..n], nextId), ds[n]).None? {
        at := at + [n];
      }
    }
  }

  lemma NoneNew(existing: seq<Context>, nextId: nat)
    ensures AreNewcomers([], [], existing, [], nextId)
  {
  }

  lemma NewcomerMore(at: seq<nat>, newcomers: seq<Context>, existing: seq<Context>, ds: seq<Detected>, nextId: nat)
    requires ds != [] && AreNewcomers(at, newcomers, existing, ds[..|ds| - 1], nextId)
    ensures var n := |ds| - 1;
      if FirstMatch(existing + newcomers, ds[n]).None?
      then AreNewcomers(at + [n], newcomers + [Context(nextId + |newcomers|, ds[n])], existing, ds, nextId)
      else AreNewcomers(at, newcomers, existing, ds, nextId)
  {
    hide FirstMatch, Matches;
    var n := |ds| - 1;
    PlacesMore(at, n);
    var more := if FirstMatch(existing + newcomers, ds[n]).None? then at + [n] else at;
    LastIsNew(at, newcomers, existing, ds, nextId);
    forall k: nat | k < n ensures k in more <==> NewAmong(more, existing, ds, k) {
      assert k in at <==> NewAmong(at, existing, ds[..n], k);
    }
    assert NewAmong(more, existing, ds, n) <==> NewAmong(at, existing, ds, n);
  }

  lemma LastIsNew(at: seq<nat>, newcomers: seq<Context>, existing: seq<Context>, ds: seq<Detected>, nextId: nat)
    requires ds != [] && AreNewcomers(at, newcomers, existing, ds[..|ds| - 1], nextId)
    ensures FirstMatch(existing + newcomers, ds[|ds| - 1]).None? <==> NewAmong(at, existing, ds, |ds| - 1)
  {
    hide FirstMatch, Matches;
    var n := |ds| - 1;
    var all := existing + newcomers;
    assert forall i | 0 <= i < |at| :: newcomers[i] in all && newcomers[i].process == ds[at[i]] && at[i] in at;
    if FirstMatch(all, ds[n]).Some? {
      var c := FirstMatch(all, ds[n]).value;
      if c !in existing {
        var i :| 0 <= i < |newcomers| && newcomers[i] == c;
        assert at[i] in at && at[i] < n;
      }
    } else {
      forall j: nat | j < n && j in at ensures !Matches(ds[n], ds[j]) {
        var i :| 0 <= i < |at| && at[i] == j;
      }
    }
  }

  /** Afterwards every detected process with an entity has a context. */
  lemma {:induction false} NewcomersCover(existing: seq<Context>, ds: seq<Detected>, nextId: nat, k: nat)
    requires k < |ds| && ds[k].entity.Some?
    ensures exists c :: c in existing + Newcomers(existing, ds, nextId) && Matches(ds[k], c.process)
    decreases |ds|
  {
    hide FirstMatch;
    var last := |ds| - 1;
    var before := Newcomers(existing, ds[..last], nextId);
    var all := existing + Newcomers(existing, ds, nextId);
    if k < last {
      NewcomersCover(existing, ds[..last], nextId, k);
      var c :| c in existing + before && Matches(ds[k], c.process);
      assert c in all;
    } else if FirstMatch(existing + before, ds[k]).Some? {
      var c := FirstMatch(existing + before, ds[k]).value;
      assert c in all && Matches(ds[k], c.process);
    } else {
      var c := Context(nextId + |before|, ds[k]);
      assert c in all && Matches(ds[k], c.process);
    }
  }

  /** Adding keeps contexts different and every process stored at most once. */
  lemma {:induction false} NewcomersValid(existing: seq<Context>, ds: seq<Detected>, nextId: nat)
    requires Unique(Processes(existing)) && DistinctIds(existing) && forall c | c in existing :: c.id < nextId
    ensures var all := existing + Newcomers(existing, ds, nextId);
      Unique(Processes(all)) && DistinctIds(all) && forall c | c in all :: c.id < nextId + |Newcomers(existing, ds, nextId)|
    decreases |ds|
  {
    hide FirstMatch, Unique, DistinctIds;
    if ds == [] {
      assert existing + [] == existing;
    } else {
      var d := ds[|ds| - 1];
      var before := Newcomers(existing, ds[..|ds| - 1], nextId);
      NewcomersValid(existing, ds[..|ds| - 1], nextId);
      if FirstMatch(existing + before, d).None? {
        var c := Context(nextId + |before|, d);
        UniqueMore(existing + before, c);
        Assoc(existing, before, [c]);
      } else {
        RightUnit(before);
      }
    }
  }

  lemma AsSetMore(cs: seq<Context>, c: Context)
    ensures AsSet(cs) + {c} == AsSet(cs + [c])
  {
  }

  /** The detected processes that are there. */
  function Present(detected: seq<Option<Detected>>): seq<Detected> {
    if detected == [] then []
    else
      var n := |detected| - 1;
      Present(detected[..n]) + if detected[n].Some? then [detected[n].value] else []
  }

  lemma PresentNext(detected: seq<Option<Detected>>, i: nat)
    requires i < |detected|
    ensures Present(detected[..i + 1]) == Present(detected[..i]) + if detected[i].Some? then [detected[i].value] else []
  {
    assert detected[..i + 1][..i] == detected[..i];
  }

  class ProcessStorage {
    var processes: map<int, seq<Context>>
    var nextId: nat
    var eventQueue: seq<Event>

    /** Contexts are different objects, and no finder has a process twice. */
    ghost predicate Valid()
      reads this
    {
      forall f | f in processes ::
        && Unique(Processes(processes[f])) && DistinctIds(processes[f]) && forall c | c in processes[f] :: c.id < nextId
    }

    function Stored(finder: int): seq<Context>
      reads this
    {
      if finder in processes then processes[finder] else []
    }

    constructor ()
      ensures Valid() && processes == map[] && eventQueue == []
    {
      processes, nextId, eventQueue := map[], 0, [];
    }

    /** Sends one event per pid, in some order. */
    method Send(operate: Operate, b: Builder)
      modifies this`eventQueue
      ensures exists events :: Announces(events, operate, b) && eventQueue == old(eventQueue) + events
    {
      ghost var events := [];
      var todo := b.Keys;
      while todo != {}
        invariant todo <= b.Keys && eventQueue == old(eventQueue) + events
        invariant Announces(events, operate, b - todo)
        decreases todo
      {
        SomeMember(todo);
        var pid :| pid in todo;
        var e := Event(operate, pid, b[pid]);
        AnnouncesMore(events, operate, b, todo, pid);
        eventQueue, events, todo := eventQueue + [e], events + [e], todo - {pid};
      }
      assert b - {} == b;
    }

    /** Replaces the processes of a finder by the detected ones. */
    method SyncAllProcessInFinder(finder: int, detected: seq<Option<Detected>>)
      modifies this
      ensures old(Valid()) && Unique(Present(detected)) ==> Valid()
      ensures processes == old(processes)[finder := Synced(old(Stored(finder)), Present(detected), old(nextId))]
      ensures exists adds, deletes, a, d ::
        && eventQueue == old(eventQueue) + a + d
        && Announces(a, Add, adds) && Collects(adds, Added(old(Stored(finder)), Present(detected), old(nextId)))
        && Announces(d, Delete, deletes) && Collects(deletes, Deleted(old(Stored(finder)), Present(detected), old(nextId)))
    {
      hide FirstMatch, Synced, Unique, DistinctIds, Collects, Announces, Added, Deleted, Present;
      var existing := Stored(finder);
      ghost var ds := Present(detected);
      if old(Valid()) {
        AllUnique(existing);
        SyncedValid(existing, ds, nextId);
      }
      SyncedSize(existing, ds, nextId);
      DeletedStored(existing, ds, nextId);
      var synced, founded, adds := Compare(existing, detected);
      Send(Add, adds);
      var deletes := Dead(existing, founded);
      processes, nextId := processes[finder := synced], nextId + |synced|;
      Send(Delete, deletes);
    }

    /** Stores the detected processes that are not stored yet. */
    method AddNewProcessInFinder(finder: int, detected: seq<Option<Detected>>)
      modifies this
      ensures old(Valid()) ==> Valid()
      ensures var newcomers := Newcomers(old(Stored(finder)), Present(detected), old(nextId));
        && processes == old(processes)[finder := old(Stored(finder)) + newcomers]
        && exists adds, a ::
          eventQueue == old(eventQueue) + a && Announces(a, Add, adds) && Collects(adds, AsSet(newcomers))
    {
      hide Collects, AddProcess, Newcomers, Unique, DistinctIds, Present, Announces, FirstMatch;
      ghost var before := Stored(finder);
      var list, adds: Builder := Stored(finder), map[];
      ghost var newcomers: seq<Context> := [];
      CollectsNothing();
      NoNewcomers(before, detected, nextId);
      for i := 0 to |detected|
        invariant list == before + newcomers && nextId == old(nextId) + |newcomers|
        invariant newcomers == Newcomers(before, Present(detected[..i]), old(nextId)) && Collects(adds, AsSet(newcomers))
        invariant processes == old(processes) && eventQueue == old(eventQueue)
      {
        PresentNext(detected, i);
        if detected[i].Some? {
          var d := detected[i].value;
          var found := Lookup(list, d);
          NewcomersNext(before, Present(detected[..i]), d, old(nextId));
          if found.None? {
            var c := Context(nextId, d);
            CollectsMore(adds, AsSet(newcomers), c);
            AsSetMore(newcomers, c);
            Assoc(before, newcomers, [c]);
            adds, newcomers, list, nextId := AddProcess(adds, c), newcomers + [c], list + [c], nextId + 1;
          }
        } else {
          RightUnit(Present(detected[..i]));
        }
      }
      TakeAll(detected);
      if old(Valid()) {
        AllUnique(before);
        NewcomersValid(before, Present(detected), old(nextId));
      }
      processes := processes[finder := list];
      Send(Add, adds);
    }

    /** The new list, the stored contexts found again, and the builder of the others. */
    method Compare(existing: seq<Context>, detected: seq<Option<Detected>>)
      returns (synced: seq<Context>, founded: set<Context>, adds: Builder)
      ensures synced == Synced(existing, Present(detected), nextId)
      ensures Collects(adds, Added(existing, Present(detected), nextId))
      ensures founded == AsSet(existing) - Deleted(existing, Present(detected), nextId)
    {
      hide FirstMatch, Added, Deleted, Synced, Collects, AddProcess;
      synced, founded, adds := [], {}, map[];
      ghost var ds: seq<Detected> := [];
      NothingSynced(existing, nextId);
      for i := 0 to |detected|
        invariant ds == Present(detected[..i]) && synced == Synced(existing, ds, nextId)
        invariant Collects(adds, Added(existing, ds, nextId))
        invariant founded == AsSet(existing) - Deleted(existing, ds, nextId)
      {
        PresentNext(detected, i);
        if detected[i].Some? {
          var d := detected[i].value;
          var found := Lookup(existing, d);
          SyncedMore(existing, ds, d, nextId);
          SyncedSize(existing, ds, nextId);
          if found.Some? {
            FirstMatchStored(existing, d);
            founded := founded + {found.value};
            synced := synced + [found.value];
          } else {
            var c := Context(nextId + |synced|, d);
            CollectsMore(adds, Added(existing, ds, nextId), c);
            adds, synced := AddProcess(adds, c), synced + [c];
          }
          ds := ds + [d];
        }
      }
      assert detected[..|detected|] == detected;
    }

    /** Scans the stored contexts for the first that matches. */
    method Lookup(existing: seq<Context>, d: Detected) returns (r: Option<Context>)
      ensures r == FirstMatch(existing, d)
    {
      var j := 0;
      DropEnds(existing);
      while j < |existing| && !Matches(d, existing[j].process)
        invariant 0 <= j <= |existing| && FirstMatch(existing[j..], d) == FirstMatch(existing, d)
      {
        assert existing[j..][1..] == existing[j + 1..];
        j := j + 1;
      }
      return if j < |existing| then Some(existing[j]) else None;
    }

    method Dead(existing: seq<Context>, founded: set<Context>) returns (deletes: Builder)
      ensures Collects(deletes, AsSet(existing) - founded)
    {
      deletes := map[];
      var todo := (set c | c in existing) - founded;
      ghost var all := todo;
      while todo != {}
        invariant todo <= all && Collects(deletes, all - todo)
        decreases todo
      {
        var p :| p in todo;
        CollectsMore(deletes, all - todo, p);
        assert (all - todo) + {p} == all - (todo - {p});
        deletes, todo := AddProcess(deletes, p), todo - {p};
      }
      assert all - {} == all;
    }
  }

  lemma CollectsNothing()
    ensures Collects(map[], AsSet([]))
  {
  }

  lemma AllUnique(cs: seq<Context>)
    ensures cs == [] ==> Unique(Processes(cs)) && DistinctIds(cs)
  {
  }

  lemma SyncedValid(existing: seq<Context>, ds: seq<Detected>, nextId: nat)
    requires Unique(Processes(existing)) && DistinctIds(existing) && forall c | c in existing :: c.id < nextId
    ensures |Synced(existing, ds, nextId)| == |ds|
    ensures forall c | c in Synced(existing, ds, nextId) :: c.id < nextId + |ds|
    ensures Unique(ds) ==> Unique(Processes(Synced(existing, ds, nextId))) && DistinctIds(Synced(existing, ds, nextId))
  {
    SyncUnique(existing, ds, nextId);
    var next := Synced(existing, ds, nextId);
    if Unique(ds) {
      forall i, j | 0 <= i < j < |next| ensures next[i].id != next[j].id {
        if next[i].id == next[j].id {
          SameContext(existing, ds, nextId, i, j);
        }
      }
    }
  }

  /** Two detected processes with one context are the same process. */
  lemma SameContext(existing: seq<Context>, ds: seq<Detected>, nextId: nat, i: nat, j: nat)
    requires DistinctIds(existing) && (forall c | c in existing :: c.id < nextId) && i < j < |ds|
    requires Synced(existing, ds, nextId)[i].id == Synced(existing, ds, nextId)[j].id
    ensures Matches(ds[i], ds[j])
  {
    var a, b := SyncedAt(existing, ds, nextId, i), SyncedAt(existing, ds, nextId, j);
    assert a in existing && b in existing;
    assert a == b;
  }

  lemma DeletedStored(existing: seq<Context>, ds: seq<Detected>, nextId: nat)
    ensures AsSet(existing) - (AsSet(existing) - Deleted(existing, ds, nextId)) == Deleted(existing, ds, nextId)
  {
  }

  lemma UniqueMore(cs: seq<Context>, c: Context)
    requires Unique(Processes(cs)) && DistinctIds(cs) && (forall x | x in cs :: x.id < c.id && !Matches(c.process, x.process))
    ensures Unique(Processes(cs + [c])) && DistinctIds(cs + [c])
  {
    var ps := Processes(cs + [c]);
    forall i, j | 0 <= i < j < |ps| ensures !Matches(ps[i], ps[j]) {
      if j == |cs| {
        assert cs[i] in cs;
      } else {
        assert ps[i] == Processes(cs)[i] && ps[j] == Processes(cs)[j];
      }
    }
  }

  lemma NothingSynced(existing: seq<Context>, nextId: nat)
    ensures Synced(existing, [], nextId) == [] && Collects(map[], Added(existing, [], nextId))
    ensures AsSet(existing) - Deleted(existing, [], nextId) == {}
  {
  }

  lemma SyncedSize(existing: seq<Context>, ds: seq<Detected>, nextId: nat)
    ensures |Synced(existing, ds, nextId)| == |ds|
    ensures forall c | c in Deleted(existing, ds, nextId) :: c in existing
  {
  }

  lemma FirstMatchStored(existing: seq<Context>, d: Detected)
    ensures FirstMatch(existing, d).Some? ==> FirstMatch(existing, d).value in existing
  {
  }

  lemma AnnouncesMore(events: seq<Event>, operate: Operate, b: Builder, todo: set<int>, pid: int)
    requires Announces(events, operate, b - todo) && todo <= b.Keys && pid in todo
    ensures Announces(events + [Event(operate, pid, b[pid])], operate, b - (todo - {pid}))
  {
    var e := Event(operate, pid, b[pid]);
    var all := events + [e];
    forall p | p in b - (todo - {pid}) ensures exists x :: x in all && x.pid == p {
      if p == pid {
        assert e in all;
      } else {
        assert p in b - todo;
        var x :| x in events && x.pid == p;
        assert x in all;
      }
    }
  }
}
