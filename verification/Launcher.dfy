/**
 The host table of the launcher service (launch.c). LauncherSpec states what the four calls and the
 death of a child do; HostLauncher is the code over the array; LauncherProofs treats whole runs.
 */
module LauncherSpec {
  import opened Wrappers

  type Pid = nat
  type Fd = nat
  type HostId = id: nat | id < GUINT_LIMIT

  const GUINT_LIMIT: nat := 0x1_0000_0000
  const PATH_SIZE := 64

  /** struct host_entry. */
  datatype Entry = Entry(alive: bool, orphan: bool, id: HostId, pid: Pid, pipeFd: Fd, path: string)

  /** What waitpid says about a child. */
  datatype WaitStatus = ExitCode(code: nat) | Signal(sig: nat) | StopSignal(sig: nat) | OtherStatus(raw: int)

  /** The value sent with HostDied. */
  function StatusValue(st: WaitStatus): int {
    match st
    case ExitCode(code) => code
    case Signal(sig) => 0 - sig
    case StopSignal(sig) => 0 - sig
    case OtherStatus(raw) => raw
  }

  datatype Answer =
    | Launched(id: HostId) | InUse | SocketFailed | SpawnFailed
    | Killed | InvalidId
    | Adopted(id: HostId) | NothingToAdopt
    | Orphaned | AlreadyOrphan
    | Reaped
    | AssertionFailed

  datatype Died = Died(id: HostId, status: int)

  /** The table, and what the code did to the system: descriptors it holds, processes it killed,
      children it watches, signals it sent. */
  datatype Launcher = Launcher(
    hosts: seq<Entry>, nextId: HostId,
    openFds: set<Fd>, killed: set<Pid>, watchers: map<Pid, HostId>, signals: seq<Died>)

  function Empty(): Launcher {
    Launcher([], 1, {}, {}, map[], [])
  }

  /** The first entry from `i` on with this id, or the length. */
  function FirstId(hosts: seq<Entry>, id: HostId, i: nat): (k: nat)
    requires i <= |hosts|
    ensures i <= k <= |hosts| && (k < |hosts| ==> hosts[k].id == id)
    ensures forall j :: i <= j < k ==> hosts[j].id != id
    decreases |hosts| - i
  {
    if i == |hosts| || hosts[i].id == id then i else FirstId(hosts, id, i + 1)
  }

  function FirstPath(hosts: seq<Entry>, path: string, i: nat): (k: nat)
    requires i <= |hosts|
    ensures i <= k <= |hosts| && (k < |hosts| ==> hosts[k].path == path)
    ensures forall j :: i <= j < k ==> hosts[j].path != path
    decreases |hosts| - i
  {
    if i == |hosts| || hosts[i].path == path then i else FirstPath(hosts, path, i + 1)
  }

  function FirstOrphan(hosts: seq<Entry>, path: string, i: nat): (k: nat)
    requires i <= |hosts|
    ensures i <= k <= |hosts| && (k < |hosts| ==> hosts[k].path == path && hosts[k].orphan)
    ensures forall j :: i <= j < k ==> hosts[j].path != path || !hosts[j].orphan
    decreases |hosts| - i
  {
    if i == |hosts| || (hosts[i].path == path && hosts[i].orphan) then i else FirstOrphan(hosts, path, i + 1)
  }

  /** `g_array_remove_index_fast`: the last entry takes the place of the removed one. */
  function RemoveFast(hosts: seq<Entry>, k: nat): (t: seq<Entry>)
    requires k < |hosts|
    ensures |t| == |hosts| - 1
    ensures forall i {:trigger t[i]} :: 0 <= i < |t| ==> t[i] == if i == k then hosts[|hosts| - 1] else hosts[i]
  {
    hosts[k := hosts[|hosts| - 1]][..|hosts| - 1]
  }

  /** `free_host` and the removal of the entry. */
  function Freed(s: Launcher, k: nat): Launcher
    requires k < |s.hosts|
  {
    var e := s.hosts[k];
    s.(hosts := RemoveFast(s.hosts, k), openFds := s.openFds - {e.pipeFd},
       killed := if e.alive then s.killed + {e.pid} else s.killed)
  }

  /** `g_strlcpy` into the 64-byte field. */
  function Stored(path: string): string {
    if |path| < PATH_SIZE then path else path[..PATH_SIZE - 1]
  }

  function Launch(s: Launcher, path: string, socket: bool, spawn: Option<Pid>, fd: Fd): (Launcher, Answer) {
    var k := FirstPath(s.hosts, path, 0);
    if k < |s.hosts| && !s.hosts[k].orphan then (s, InUse)
    else if k < |s.hosts| && s.hosts[k].pipeFd !in s.openFds then (s, AssertionFailed)
    else
      var s1 := if k < |s.hosts| then Freed(s, k) else s;
      if !socket then (s1, SocketFailed)
      else if spawn.None? then (s1, SpawnFailed)
      else
        var e := Entry(true, false, s.nextId, spawn.value, fd, Stored(path));
        (s1.(hosts := s1.hosts + [e], nextId := (s.nextId + 1) % GUINT_LIMIT, openFds := s1.openFds + {fd},
             watchers := s1.watchers[spawn.value := s.nextId]), Launched(s.nextId))
  }

  function Kill(s: Launcher, id: HostId): (Launcher, Answer) {
    var k := FirstId(s.hosts, id, 0);
    if k == |s.hosts| then (s, InvalidId)
    else if s.hosts[k].pipeFd !in s.openFds then (s, AssertionFailed)
    else (Freed(s, k), Killed)
  }

  function Adopt(s: Launcher, path: string): (Launcher, Answer) {
    var k := FirstOrphan(s.hosts, path, 0);
    if k == |s.hosts| then (s, NothingToAdopt)
    else if !s.hosts[k].alive || s.hosts[k].pipeFd !in s.openFds then (s, AssertionFailed)
    else (s.(hosts := s.hosts[k := s.hosts[k].(orphan := false)]), Adopted(s.hosts[k].id))
  }

  function Orphan(s: Launcher, id: HostId): (Launcher, Answer) {
    var k := FirstId(s.hosts, id, 0);
    if k == |s.hosts| then (s, InvalidId)
    else if s.hosts[k].orphan then (s, if s.hosts[k].alive then AlreadyOrphan else AssertionFailed)
    else if !s.hosts[k].alive then
      if s.hosts[k].pipeFd !in s.openFds then (s, AssertionFailed) else (Freed(s, k), Orphaned)
    else (s.(hosts := s.hosts[k := s.hosts[k].(orphan := true)]), Orphaned)
  }

  /** `host_watch_cb` for the child `pid`, watched for host `id`. */
  function Watch(s: Launcher, pid: Pid, id: HostId, st: WaitStatus): (Launcher, Answer) {
    var k := FirstId(s.hosts, id, 0);
    var s1 := s.(watchers := s.watchers - {pid});
    if exists j :: 0 <= j < k && s.hosts[j].pid == pid then (s1, AssertionFailed)
    else if k == |s.hosts| then (s1, Reaped)
    else
      var e := s.hosts[k];
      if e.pid != pid then (s1, AssertionFailed)
      else if e.alive && e.orphan then
        if e.pipeFd !in s.openFds then (s1, AssertionFailed) else (Freed(s1, k), Reaped)
      else if !e.alive && e.orphan then (s1, AssertionFailed)
      else
        var s2 := s1.(hosts := s.hosts[k := e.(alive := false)]);
        (if e.alive then s2.(signals := s.signals + [Died.Died(id, StatusValue(st))]) else s2, Reaped)
  }
}

module LauncherProofs {
  import opened Wrappers
  import opened LauncherSpec

  /** A host process that ended: whether the launcher had killed it, and whether it was an orphan. */
  datatype Death = Death(died: Died, killed: bool, orphan: bool)

  /** What an observer sees: the processes ever spawned, the hosts that clients orphaned and nobody
      adopted, and the ends of host processes in order. */
  datatype World = World(launcher: Launcher, spawned: set<Pid>, orphans: set<HostId>, deaths: seq<Death>, failed: bool)

  datatype Event =
    | LaunchCall(path: string, socket: bool, spawn: Option<Pid>, fd: Fd)
    | KillCall(id: HostId)
    | AdoptCall(path: string)
    | OrphanCall(id: HostId)
    | ChildEnds(pid: Pid, status: WaitStatus)

  function Opened(): World {
    World(Empty(), {}, {}, [], false)
  }

  /** Process ids are not reused, descriptors are fresh, ids do not wrap around; each child ends once. */
  predicate Possible(w: World, e: Event) {
    match e
    case LaunchCall(path, _, spawn, fd) =>
      && |path| < PATH_SIZE && fd !in w.launcher.openFds && w.launcher.nextId + 1 < GUINT_LIMIT
      && (spawn.Some? ==> spawn.value !in w.spawned)
    case ChildEnds(pid, _) => pid in w.launcher.watchers
    case _ => true
  }

  function StepCall(w: World, r: (Launcher, Answer)): World {
    w.(launcher := r.0, failed := w.failed || r.1 == AssertionFailed,
       orphans := if r.1.Adopted? then w.orphans - {r.1.id} else w.orphans)
  }

  function Step(w: World, e: Event): World
    requires Possible(w, e)
  {
    match e
    case LaunchCall(path, socket, spawn, fd) =>
      var r := Launch(w.launcher, path, socket, spawn, fd);
      var w1 := StepCall(w, r);
      if r.1.Launched? then w1.(spawned := w.spawned + {spawn.value}) else w1
    case KillCall(id) => StepCall(w, Kill(w.launcher, id))
    case AdoptCall(path) => StepCall(w, Adopt(w.launcher, path))
    case OrphanCall(id) =>
      var r := Orphan(w.launcher, id);
      var w1 := StepCall(w, r);
      if r.1 == Orphaned then w1.(orphans := w1.orphans + {id}) else w1
    case ChildEnds(pid, st) =>
      var id := w.launcher.watchers[pid];
      var d := Death(Died.Died(id, StatusValue(st)), pid in w.launcher.killed, id in w.orphans);
      StepCall(w, Watch(w.launcher, pid, id, st)).(deaths := w.deaths + [d])
  }

  function Run(w: World, es: seq<Event>): World
    decreases |es|
  {
    if es == [] then w
    else if Possible(w, es[0]) then Run(Step(w, es[0]), es[1..]) else Run(w, es[1..])
  }

  // ---------------------------------------------------------------- the invariant

  ghost predicate Distinct(hosts: seq<Entry>) {
    forall i, j :: 0 <= i < j < |hosts| ==>
      && hosts[i].id != hosts[j].id && hosts[i].pid != hosts[j].pid
      && hosts[i].pipeFd != hosts[j].pipeFd && hosts[i].path != hosts[j].path
  }

  ghost predicate EntryOk(w: World, e: Entry) {
    && 0 < e.id < w.launcher.nextId && e.pid in w.spawned && e.pipeFd in w.launcher.openFds
    && (e.orphan ==> e.alive) && (e.orphan <==> e.alive && e.id in w.orphans)
    && (e.alive <==> e.pid in w.launcher.watchers)
    && (e.alive ==> w.launcher.watchers[e.pid] == e.id && e.pid !in w.launcher.killed)
    && (!e.alive ==> forall p {:trigger w.launcher.watchers[p]} :: p in w.launcher.watchers ==> w.launcher.watchers[p] != e.id)
  }

  ghost predicate Entries(w: World) {
    && Distinct(w.launcher.hosts)
    && (forall i {:trigger w.launcher.hosts[i]} :: 0 <= i < |w.launcher.hosts| ==> EntryOk(w, w.launcher.hosts[i]))
    && (forall fd :: fd in w.launcher.openFds ==> HasFd(w.launcher.hosts, fd))
  }

  ghost predicate HasFd(hosts: seq<Entry>, fd: Fd) {
    exists i {:trigger hosts[i]} :: 0 <= i < |hosts| && hosts[i].pipeFd == fd
  }

  ghost predicate AliveEntry(hosts: seq<Entry>, pid: Pid) {
    exists i {:trigger hosts[i]} :: 0 <= i < |hosts| && hosts[i].pid == pid && hosts[i].alive
  }

  ghost predicate Processes(w: World) {
    && w.launcher.watchers.Keys <= w.spawned && w.launcher.killed <= w.spawned
    && (forall p {:trigger w.launcher.watchers[p]} :: p in w.launcher.watchers ==>
          && 0 < w.launcher.watchers[p] < w.launcher.nextId
          && (p in w.launcher.killed || AliveEntry(w.launcher.hosts, p)))
    && (forall p, q :: p in w.launcher.watchers && q in w.launcher.watchers && p != q ==>
          w.launcher.watchers[p] != w.launcher.watchers[q])
  }

  /** The signals that are due: one for each host that ended neither killed nor orphaned. */
  function Due(deaths: seq<Death>): seq<Died> {
    if deaths == [] then []
    else
      var d := deaths[|deaths| - 1];
      Due(deaths[..|deaths| - 1]) + if d.killed || d.orphan then [] else [d.died]
  }

  ghost predicate Signals(w: World) {
    && w.launcher.signals == Due(w.deaths)
    && (forall i {:trigger w.deaths[i]} :: 0 <= i < |w.deaths| ==>
          && w.deaths[i].died.id < w.launcher.nextId
          && (forall p {:trigger w.launcher.watchers[p]} :: p in w.launcher.watchers ==> w.launcher.watchers[p] != w.deaths[i].died.id))
    && (forall i, j :: 0 <= i < j < |w.deaths| ==> w.deaths[i].died.id != w.deaths[j].died.id)
  }

  ghost predicate Inv(w: World) {
    && w.launcher.nextId > 0 && !w.failed && (forall id :: id in w.orphans ==> id < w.launcher.nextId)
    && Entries(w) && Processes(w) && Signals(w)
  }

  // ---------------------------------------------------------------- one operation at a time

  lemma RemovedAt(hosts: seq<Entry>, k: nat, i: nat) returns (j: nat)
    requires k < |hosts| && i < |hosts| && i != k
    ensures j < |hosts| - 1 && RemoveFast(hosts, k)[j] == hosts[i]
  {
    j := if i == |hosts| - 1 then k else i;
  }

  lemma RemovedDistinct(hosts: seq<Entry>, k: nat)
    requires Distinct(hosts) && k < |hosts|
    ensures Distinct(RemoveFast(hosts, k))
  {
    var t := RemoveFast(hosts, k);
    forall i, j | 0 <= i < j < |t|
      ensures t[i].id != t[j].id && t[i].pid != t[j].pid && t[i].pipeFd != t[j].pipeFd && t[i].path != t[j].path
    {
      var i0, j0 := if i == k then |hosts| - 1 else i, if j == k then |hosts| - 1 else j;
      assert t[i] == hosts[i0] && t[j] == hosts[j0] && i0 != j0;
      if i0 < j0 { DistinctPair(hosts, i0, j0); } else { DistinctPair(hosts, j0, i0); }
    }
  }

  lemma DistinctPair(hosts: seq<Entry>, i: nat, j: nat)
    requires Distinct(hosts) && i < j < |hosts|
    ensures hosts[i].id != hosts[j].id && hosts[i].pid != hosts[j].pid
    ensures hosts[i].pipeFd != hosts[j].pipeFd && hosts[i].path != hosts[j].path
  {
  }

  function Watched(w: World, launcher: Launcher): World {
    w.(launcher := launcher)
  }

  /** Killing an entry's process and dropping the entry. */
  lemma FreedEntries(w: World, k: nat)
    requires Entries(w) && k < |w.launcher.hosts|
    ensures Entries(Watched(w, Freed(w.launcher, k)))
  {
    var hosts, t := w.launcher.hosts, RemoveFast(w.launcher.hosts, k);
    var w' := Watched(w, Freed(w.launcher, k));
    RemovedDistinct(hosts, k);
    forall i {:trigger t[i]} | 0 <= i < |t| ensures EntryOk(w', t[i]) {
      var j := if i == k then |hosts| - 1 else i;
      assert EntryOk(w, hosts[j]);
      if j < k { assert hosts[j].pid != hosts[k].pid; } else { assert hosts[k].pid != hosts[j].pid; }
    }
    forall fd | fd in w'.launcher.openFds ensures HasFd(t, fd) {
      assert HasFd(hosts, fd);
      var i :| 0 <= i < |hosts| && hosts[i].pipeFd == fd;
      var j := RemovedAt(hosts, k, i);
      assert t[j].pipeFd == fd;
    }
  }

  lemma FreedProcesses(w: World, k: nat)
    requires Entries(w) && Processes(w) && k < |w.launcher.hosts|
    ensures Processes(Watched(w, Freed(w.launcher, k)))
  {
    var hosts, t := w.launcher.hosts, RemoveFast(w.launcher.hosts, k);
    var w' := Watched(w, Freed(w.launcher, k));
    assert EntryOk(w, hosts[k]);
    forall p {:trigger w.launcher.watchers[p]} | p in w.launcher.watchers
      ensures p in w'.launcher.killed || AliveEntry(t, p)
    {
      if p !in w'.launcher.killed {
        assert AliveEntry(hosts, p);
        var i :| 0 <= i < |hosts| && hosts[i].pid == p && hosts[i].alive;
        var j := RemovedAt(hosts, k, i);
        assert t[j].pid == p;
      }
    }
  }

  lemma FreedInv(w: World, k: nat)
    requires Inv(w) && k < |w.launcher.hosts|
    ensures Inv(Watched(w, Freed(w.launcher, k)))
  {
    FreedEntries(w, k);
    FreedProcesses(w, k);
    hide Entries, Processes;
  }

  /** Making a host an orphan, or adopting it. */
  lemma OrphanInv(w: World, k: nat, orphan: bool)
    requires Inv(w) && k < |w.launcher.hosts| && w.launcher.hosts[k].alive
    ensures var e := w.launcher.hosts[k];
      Inv(w.(launcher := w.launcher.(hosts := w.launcher.hosts[k := e.(orphan := orphan)]),
             orphans := if orphan then w.orphans + {e.id} else w.orphans - {e.id}))
  {
    var e := w.launcher.hosts[k];
    var t := w.launcher.hosts[k := e.(orphan := orphan)];
    var w' := w.(launcher := w.launcher.(hosts := t), orphans := if orphan then w.orphans + {e.id} else w.orphans - {e.id});
    assert EntryOk(w, e);
    forall i {:trigger t[i]} | 0 <= i < |t| ensures EntryOk(w', t[i]) {
      assert EntryOk(w, w.launcher.hosts[i]);
      assert i != k ==> w.launcher.hosts[i].id != e.id;
    }
    ReplacedEntry(w.launcher, k, t);
    assert Entries(w');
    assert Processes(w');
    hide Entries, Processes, EntryOk;
  }

  /** An entry that keeps its descriptor and its process. */
  lemma ReplacedEntry(s: Launcher, k: nat, t: seq<Entry>)
    requires k < |s.hosts| && |t| == |s.hosts| && t == s.hosts[k := t[k]]
    requires t[k].pipeFd == s.hosts[k].pipeFd && t[k].pid == s.hosts[k].pid
    ensures forall fd :: HasFd(s.hosts, fd) ==> HasFd(t, fd)
    ensures forall p :: AliveEntry(s.hosts, p) && (p != t[k].pid || t[k].alive) ==> AliveEntry(t, p)
  {
    forall fd | HasFd(s.hosts, fd) ensures HasFd(t, fd) {
      var i :| 0 <= i < |s.hosts| && s.hosts[i].pipeFd == fd;
      assert t[i].pipeFd == fd;
    }
    forall p | AliveEntry(s.hosts, p) && (p != t[k].pid || t[k].alive) ensures AliveEntry(t, p) {
      var i :| 0 <= i < |s.hosts| && s.hosts[i].pid == p && s.hosts[i].alive;
      assert t[i].pid == p;
    }
  }

  /** A host was started and entered into the table. */
  function Added(w: World, path: string, pid: Pid, fd: Fd): World
    requires w.launcher.nextId + 1 < GUINT_LIMIT
  {
    var s, id := w.launcher, w.launcher.nextId;
    w.(launcher := s.(hosts := s.hosts + [Entry(true, false, id, pid, fd, path)], nextId := id + 1,
                      openFds := s.openFds + {fd}, watchers := s.watchers[pid := id]),
       spawned := w.spawned + {pid})
  }

  lemma LaunchedInv(w: World, path: string, pid: Pid, fd: Fd)
    requires Inv(w) && pid !in w.spawned && fd !in w.launcher.openFds && w.launcher.nextId + 1 < GUINT_LIMIT
    requires forall i {:trigger w.launcher.hosts[i]} :: 0 <= i < |w.launcher.hosts| ==> w.launcher.hosts[i].path != path
    ensures Inv(Added(w, path, pid, fd))
  {
    var s, id := w.launcher, w.launcher.nextId;
    var e := Entry(true, false, id, pid, fd, path);
    var t := s.hosts + [e];
    var w' := Added(w, path, pid, fd);
    forall i {:trigger t[i]} | 0 <= i < |t| ensures EntryOk(w', t[i]) {
      if i < |s.hosts| { assert EntryOk(w, s.hosts[i]); }
    }
    forall i, j | 0 <= i < j < |t|
      ensures t[i].id != t[j].id && t[i].pid != t[j].pid && t[i].pipeFd != t[j].pipeFd && t[i].path != t[j].path
    {
      assert EntryOk(w, s.hosts[i]);
    }
    AppendedEntry(s.hosts, e);
    assert Entries(w');
    assert Processes(w');
    hide Entries, Processes, EntryOk;
  }

  lemma AppendedEntry(hosts: seq<Entry>, e: Entry)
    ensures forall fd :: HasFd(hosts, fd) || fd == e.pipeFd ==> HasFd(hosts + [e], fd)
    ensures forall p :: AliveEntry(hosts, p) || (p == e.pid && e.alive) ==> AliveEntry(hosts + [e], p)
  {
    var t := hosts + [e];
    assert t[|hosts|] == e;
    forall fd | HasFd(hosts, fd) ensures HasFd(t, fd) {
      var i :| 0 <= i < |hosts| && hosts[i].pipeFd == fd;
      assert t[i].pipeFd == fd;
    }
    forall p | AliveEntry(hosts, p) ensures AliveEntry(t, p) {
      var i :| 0 <= i < |hosts| && hosts[i].pid == p && hosts[i].alive;
      assert t[i].pid == p;
    }
  }

  /** A child that has no entry any more is no longer watched. */
  lemma UnwatchedInv(w: World, pid: Pid)
    requires Entries(w) && Processes(w)
    requires forall i {:trigger w.launcher.hosts[i]} :: 0 <= i < |w.launcher.hosts| ==> w.launcher.hosts[i].pid != pid
    ensures var w' := Watched(w, w.launcher.(watchers := w.launcher.watchers - {pid})); Entries(w') && Processes(w')
  {
    var w' := Watched(w, w.launcher.(watchers := w.launcher.watchers - {pid}));
    forall i {:trigger w.launcher.hosts[i]} | 0 <= i < |w.launcher.hosts| ensures EntryOk(w', w.launcher.hosts[i]) {
      assert EntryOk(w, w.launcher.hosts[i]);
    }
  }

  /** The child of entry `k` ended. */
  lemma DeadInv(w: World, k: nat)
    requires Entries(w) && Processes(w) && k < |w.launcher.hosts| && w.launcher.hosts[k].alive && !w.launcher.hosts[k].orphan
    ensures var s, e := w.launcher, w.launcher.hosts[k];
      var w' := Watched(w, s.(hosts := s.hosts[k := e.(alive := false)], watchers := s.watchers - {e.pid}));
      Entries(w') && Processes(w')
  {
    var s, e := w.launcher, w.launcher.hosts[k];
    var t := s.hosts[k := e.(alive := false)];
    var w' := Watched(w, s.(hosts := t, watchers := s.watchers - {e.pid}));
    assert EntryOk(w, e);
    forall i {:trigger t[i]} | 0 <= i < |t| ensures EntryOk(w', t[i]) {
      assert EntryOk(w, s.hosts[i]);
      assert i != k ==> s.hosts[i].pid != e.pid;
    }
    ReplacedEntry(s, k, t);
  }

  lemma SignalsInv(w: World, w': World, pid: Pid, d: Death)
    requires Signals(w) && Processes(w) && pid in w.launcher.watchers && d.died.id == w.launcher.watchers[pid]
    requires w'.launcher.watchers == w.launcher.watchers - {pid} && w'.deaths == w.deaths + [d]
    requires w'.launcher.nextId == w.launcher.nextId
    requires w'.launcher.signals == w.launcher.signals + if d.killed || d.orphan then [] else [d.died]
    ensures Signals(w')
  {
    assert w'.deaths[..|w.deaths|] == w.deaths;
    forall i {:trigger w'.deaths[i]} | 0 <= i < |w'.deaths|
      ensures w'.deaths[i].died.id < w.launcher.nextId
      ensures forall p {:trigger w'.launcher.watchers[p]} :: p in w'.launcher.watchers ==> w'.launcher.watchers[p] != w'.deaths[i].died.id
    {
      if i < |w.deaths| { assert w'.deaths[i] == w.deaths[i]; }
    }
  }

  /** The entry the callback finds is that of the child, if there still is one. */
  lemma WatchFinds(w: World, pid: Pid) returns (k: nat)
    requires Entries(w) && Processes(w) && pid in w.launcher.watchers
    ensures k == FirstId(w.launcher.hosts, w.launcher.watchers[pid], 0)
    ensures k < |w.launcher.hosts| ==>
      var e := w.launcher.hosts[k];
      e.pid == pid && e.alive && (e.orphan <==> e.id in w.orphans) && e.pipeFd in w.launcher.openFds && pid !in w.launcher.killed
    ensures k == |w.launcher.hosts| ==> pid in w.launcher.killed
    ensures forall i {:trigger w.launcher.hosts[i]} :: 0 <= i < |w.launcher.hosts| && i != k ==> w.launcher.hosts[i].pid != pid
  {
    var s := w.launcher;
    k := FirstId(s.hosts, s.watchers[pid], 0);
    forall i {:trigger s.hosts[i]} | 0 <= i < |s.hosts| && s.hosts[i].pid == pid ensures i == k {
      assert EntryOk(w, s.hosts[i]);
      assert s.hosts[i].id == s.watchers[pid];
    }
    if k < |s.hosts| {
      assert EntryOk(w, s.hosts[k]);
    } else {
      assert pid in s.killed || AliveEntry(s.hosts, pid);
    }
  }

  /** What the callback does, by the entry it finds; no assertion fails. */
  lemma WatchCases(w: World, pid: Pid, st: WaitStatus, k: nat)
    requires pid in w.launcher.watchers && k == FirstId(w.launcher.hosts, w.launcher.watchers[pid], 0)
    requires k < |w.launcher.hosts| ==>
      w.launcher.hosts[k].pid == pid && w.launcher.hosts[k].alive && w.launcher.hosts[k].pipeFd in w.launcher.openFds
    requires forall i {:trigger w.launcher.hosts[i]} :: 0 <= i < |w.launcher.hosts| && i != k ==> w.launcher.hosts[i].pid != pid
    ensures var s, id := w.launcher, w.launcher.watchers[pid];
      Watch(s, pid, id, st) ==
        (if k == |s.hosts| then s.(watchers := s.watchers - {pid})
         else if s.hosts[k].orphan then Freed(s, k).(watchers := s.watchers - {pid})
         else s.(hosts := s.hosts[k := s.hosts[k].(alive := false)], watchers := s.watchers - {pid},
                 signals := s.signals + [Died.Died(id, StatusValue(st))]), Reaped)
  {
  }

  /** Entries and processes after the callback. */
  lemma WatchKeeps(w: World, pid: Pid, st: WaitStatus, k: nat)
    requires Inv(w) && pid in w.launcher.watchers && k == FirstId(w.launcher.hosts, w.launcher.watchers[pid], 0)
    requires k < |w.launcher.hosts| ==>
      w.launcher.hosts[k].pid == pid && w.launcher.hosts[k].alive && w.launcher.hosts[k].pipeFd in w.launcher.openFds
    requires forall i {:trigger w.launcher.hosts[i]} :: 0 <= i < |w.launcher.hosts| && i != k ==> w.launcher.hosts[i].pid != pid
    ensures var t := Watched(w, Watch(w.launcher, pid, w.launcher.watchers[pid], st).0); Entries(t) && Processes(t)
  {
    var s := w.launcher;
    WatchCases(w, pid, st, k);
    hide Watch;
    if k == |s.hosts| {
      UnwatchedInv(w, pid);
    } else if s.hosts[k].orphan {
      FreedInv(w, k);
      hide Entries, Processes, Signals;
      UnwatchedInv(Watched(w, Freed(s, k)), pid);
    } else {
      DeadInv(w, k);
      hide Entries, Processes, Signals;
      SameTable(Watched(w, s.(hosts := s.hosts[k := s.hosts[k].(alive := false)], watchers := s.watchers - {pid})),
                Watched(w, Watch(s, pid, s.watchers[pid], st).0));
    }
  }

  /** Signals and deaths do not matter to the table. */
  lemma SameTable(w: World, w': World)
    requires Entries(w) && Processes(w)
    requires w' == w.(launcher := w.launcher.(signals := w'.launcher.signals), deaths := w'.deaths, failed := w'.failed)
    ensures Entries(w') && Processes(w')
  {
    forall i {:trigger w'.launcher.hosts[i]} | 0 <= i < |w'.launcher.hosts| ensures EntryOk(w', w'.launcher.hosts[i]) {
      assert EntryOk(w, w.launcher.hosts[i]);
    }
  }

  lemma ChildEndsInv(w: World, e: Event)
    requires Inv(w) && e.ChildEnds? && Possible(w, e)
    ensures Inv(Step(w, e))
  {
    var s, pid, id := w.launcher, e.pid, w.launcher.watchers[e.pid];
    var k := WatchFinds(w, pid);
    var w' := Step(w, e);
    var d := Death(Died.Died(id, StatusValue(e.status)), pid in s.killed, id in w.orphans);
    WatchCases(w, pid, e.status, k);
    WatchKeeps(w, pid, e.status, k);
    hide Entries, Processes, Signals, Watch;
    SameTable(Watched(w, Watch(s, pid, id, e.status).0), w');
    SignalsInv(w, w', pid, d);
  }

  lemma LaunchCallInv(w: World, e: Event)
    requires Inv(w) && e.LaunchCall? && Possible(w, e)
    ensures Inv(Step(w, e))
  {
    var s := w.launcher;
    var k := FirstPath(s.hosts, e.path, 0);
    if k < |s.hosts| {
      assert EntryOk(w, s.hosts[k]);
      if s.hosts[k].orphan {
        FreedInv(w, k);
        var w1 := Watched(w, Freed(s, k));
        forall i {:trigger w1.launcher.hosts[i]} | 0 <= i < |w1.launcher.hosts| ensures w1.launcher.hosts[i].path != e.path {
          var j := if i == k then |s.hosts| - 1 else i;
          if j < k { DistinctPair(s.hosts, j, k); } else { DistinctPair(s.hosts, k, j); }
        }
        LaunchStep(w, e, Freed(s, k));
        hide Inv, Step;
        if e.socket && e.spawn.Some? { LaunchedInv(w1, e.path, e.spawn.value, e.fd); }
      }
    } else {
      LaunchStep(w, e, s);
      hide Inv, Step;
      if e.socket && e.spawn.Some? { LaunchedInv(w, e.path, e.spawn.value, e.fd); }
    }
  }

  /** What a launch does once no entry is in its way; `s` is the table without the orphan it replaces. */
  lemma LaunchStep(w: World, e: Event, s: Launcher)
    requires e.LaunchCall? && Possible(w, e) && s.nextId == w.launcher.nextId
    requires var k := FirstPath(w.launcher.hosts, e.path, 0);
      if k == |w.launcher.hosts| then s == w.launcher
      else w.launcher.hosts[k].orphan && w.launcher.hosts[k].pipeFd in w.launcher.openFds && s == Freed(w.launcher, k)
    ensures Step(w, e) ==
      if e.socket && e.spawn.Some? then Added(Watched(w, s), e.path, e.spawn.value, e.fd) else Watched(w, s)
  {
  }

  lemma StepInv(w: World, e: Event)
    requires Inv(w) && Possible(w, e)
    ensures Inv(Step(w, e))
  {
    var s := w.launcher;
    match e
    case LaunchCall(_, _, _, _) => LaunchCallInv(w, e);
    case ChildEnds(_, _) => ChildEndsInv(w, e);
    case KillCall(id) => KillInv(w, id);
    case AdoptCall(path) => AdoptInv(w, path);
    case OrphanCall(id) => OrphanCallInv(w, id);
  }

  lemma KillInv(w: World, id: HostId)
    requires Inv(w)
    ensures Inv(Step(w, KillCall(id)))
  {
    var k := FirstId(w.launcher.hosts, id, 0);
    if k < |w.launcher.hosts| {
      assert EntryOk(w, w.launcher.hosts[k]);
      FreedInv(w, k);
    }
    hide Inv;
  }

  lemma AdoptInv(w: World, path: string)
    requires Inv(w)
    ensures Inv(Step(w, AdoptCall(path)))
  {
    var k := FirstOrphan(w.launcher.hosts, path, 0);
    if k < |w.launcher.hosts| {
      assert EntryOk(w, w.launcher.hosts[k]);
      OrphanInv(w, k, false);
    }
    hide Inv;
  }

  /** An id without an entry. */
  lemma ForgottenInv(w: World, id: HostId)
    requires Inv(w) && id < w.launcher.nextId
    requires forall i {:trigger w.launcher.hosts[i]} :: 0 <= i < |w.launcher.hosts| ==> w.launcher.hosts[i].id != id
    ensures Inv(w.(orphans := w.orphans + {id}))
  {
    var w' := w.(orphans := w.orphans + {id});
    forall i {:trigger w'.launcher.hosts[i]} | 0 <= i < |w'.launcher.hosts| ensures EntryOk(w', w'.launcher.hosts[i]) {
      assert EntryOk(w, w.launcher.hosts[i]);
    }
  }

  lemma FreedId(hosts: seq<Entry>, k: nat)
    requires Distinct(hosts) && k < |hosts|
    ensures forall i {:trigger RemoveFast(hosts, k)[i]} :: 0 <= i < |hosts| - 1 ==> RemoveFast(hosts, k)[i].id != hosts[k].id
  {
    forall i {:trigger RemoveFast(hosts, k)[i]} | 0 <= i < |hosts| - 1 ensures RemoveFast(hosts, k)[i].id != hosts[k].id {
      var j := if i == k then |hosts| - 1 else i;
      if j < k { DistinctPair(hosts, j, k); } else { DistinctPair(hosts, k, j); }
    }
  }

  /** Orphaning a dead host frees it. */
  lemma OrphanDead(w: World, k: nat)
    requires Inv(w) && k < |w.launcher.hosts|
    ensures var t, id := Watched(w, Freed(w.launcher, k)), w.launcher.hosts[k].id;
      Inv(t.(orphans := t.orphans + {id}))
  {
    assert EntryOk(w, w.launcher.hosts[k]);
    FreedInv(w, k);
    FreedId(w.launcher.hosts, k);
    ForgottenInv(Watched(w, Freed(w.launcher, k)), w.launcher.hosts[k].id);
    hide Inv;
  }

  lemma OrphanCallInv(w: World, id: HostId)
    requires Inv(w)
    ensures Inv(Step(w, OrphanCall(id)))
  {
    var k := FirstId(w.launcher.hosts, id, 0);
    if k < |w.launcher.hosts| {
      assert EntryOk(w, w.launcher.hosts[k]);
      if w.launcher.hosts[k].alive {
        OrphanInv(w, k, true);
      } else {
        OrphanDead(w, k);
      }
    }
    hide Inv, EntryOk;
  }

  lemma {:induction false} RunInv(w: World, es: seq<Event>)
    requires Inv(w)
    ensures Inv(Run(w, es))
    decreases |es|
  {
    if es != [] {
      if Possible(w, es[0]) {
        StepInv(w, es[0]);
        RunInv(Step(w, es[0]), es[1..]);
      } else {
        RunInv(w, es[1..]);
      }
    }
  }

  // ---------------------------------------------------------------- results

  /** The processes whose end the launcher saw in a run. */
  function Ended(w: World, es: seq<Event>): set<Pid>
    decreases |es|
  {
    if es == [] then {}
    else if !Possible(w, es[0]) then Ended(w, es[1..])
    else (if es[0].ChildEnds? then {es[0].pid} else {}) + Ended(Step(w, es[0]), es[1..])
  }

  predicate WatchesSpawned(w: World, p: Pid) {
    p in w.launcher.watchers ==> p in w.spawned
  }

  /** A step spawns and watches a process, or sees it end, or does neither. */
  lemma StepWatches(w: World, e: Event, p: Pid)
    requires Possible(w, e) && WatchesSpawned(w, p)
    ensures var t := Step(w, e);
      && WatchesSpawned(t, p) && (p in w.spawned ==> p in t.spawned)
      && (e.ChildEnds? && e.pid == p ==> p in w.launcher.watchers && p !in t.launcher.watchers && p in w.spawned)
      && (!(e.ChildEnds? && e.pid == p) && p in w.spawned ==> (p in t.launcher.watchers <==> p in w.launcher.watchers))
      && (p !in w.spawned ==> (p in t.launcher.watchers <==> p in t.spawned))
  {
  }

  /** A process that is dead stays dead. */
  lemma {:induction false} DeadStays(w: World, es: seq<Event>, p: Pid)
    requires p in w.spawned && p !in w.launcher.watchers
    ensures p in Run(w, es).spawned && p !in Run(w, es).launcher.watchers && p !in Ended(w, es)
    decreases |es|
  {
    hide Step;
    if es != [] {
      if Possible(w, es[0]) {
        StepWatches(w, es[0], p);
        DeadStays(Step(w, es[0]), es[1..], p);
      } else {
        DeadStays(w, es[1..], p);
      }
    }
  }

  /** Every other spawned process is watched or has ended, and not both. */
  lemma {:induction false} WatchedOrEnded(w: World, es: seq<Event>, p: Pid)
    requires p in w.launcher.watchers <==> p in w.spawned
    ensures p in Run(w, es).spawned ==> (p in Run(w, es).launcher.watchers <==> p !in Ended(w, es))
    ensures p in Run(w, es).launcher.watchers || p in Ended(w, es) ==> p in Run(w, es).spawned
    decreases |es|
  {
    hide Step;
    if es != [] {
      if Possible(w, es[0]) {
        var t := Step(w, es[0]);
        StepWatches(w, es[0], p);
        if es[0].ChildEnds? && es[0].pid == p {
          DeadStays(t, es[1..], p);
        } else {
          WatchedOrEnded(t, es[1..], p);
        }
      } else {
        WatchedOrEnded(w, es[1..], p);
      }
    }
  }

  /** In every run: no assertion fails, ids are nonzero and unique, a path has at most one entry, orphans
      are alive, the open descriptors are those of the entries, and every process ever spawned has ended,
      is killed, or is in an alive entry; it is watched exactly until its end. */
  lemma TableIsSound(es: seq<Event>)
    ensures var w := Run(Opened(), es);
      var hosts := w.launcher.hosts;
      && !w.failed && Distinct(hosts)
      && (forall i :: 0 <= i < |hosts| ==> hosts[i].id != 0 && (hosts[i].orphan ==> hosts[i].alive))
      && (forall fd :: fd in w.launcher.openFds <==> HasFd(hosts, fd))
      && (forall p :: p in w.spawned ==> p in Ended(Opened(), es) || p in w.launcher.killed || AliveEntry(hosts, p))
      && (forall p :: p in w.spawned ==> (p in w.launcher.watchers <==> p !in Ended(Opened(), es)))
      && (forall i :: 0 <= i < |hosts| ==> hosts[i].pid in w.spawned && (hosts[i].alive <==> hosts[i].pid !in Ended(Opened(), es)))
  {
    RunInv(Opened(), es);
    var w := Run(Opened(), es);
    forall i | 0 <= i < |w.launcher.hosts|
      ensures w.launcher.hosts[i].id != 0 && (w.launcher.hosts[i].orphan ==> w.launcher.hosts[i].alive)
      ensures w.launcher.hosts[i].pid in w.spawned
      ensures w.launcher.hosts[i].alive <==> w.launcher.hosts[i].pid !in Ended(Opened(), es)
      ensures w.launcher.hosts[i].pipeFd in w.launcher.openFds
    {
      assert EntryOk(w, w.launcher.hosts[i]);
      WatchedOrEnded(Opened(), es, w.launcher.hosts[i].pid);
    }
    forall p | p in w.spawned
      ensures p in w.launcher.watchers <==> p !in Ended(Opened(), es)
      ensures p in Ended(Opened(), es) || p in w.launcher.killed || AliveEntry(w.launcher.hosts, p)
    {
      WatchedOrEnded(Opened(), es, p);
      if p in w.launcher.watchers { assert w.launcher.watchers[p] > 0; }
    }
    assert forall fd :: HasFd(w.launcher.hosts, fd) ==> fd in w.launcher.openFds;
  }

  /** HostDied is sent exactly once for each host that ends neither killed nor orphaned, in the order of
      their ends, and for no other; no host ends twice. */
  lemma SignalsAreDue(es: seq<Event>)
    ensures var w := Run(Opened(), es);
      && w.launcher.signals == Due(w.deaths)
      && forall i, j :: 0 <= i < j < |w.deaths| ==> w.deaths[i].died.id != w.deaths[j].died.id
  {
    RunInv(Opened(), es);
  }

  /** The ends of host processes, read off the events alone. */
  function Ends(w: World, es: seq<Event>): seq<Death>
    decreases |es|
  {
    if es == [] then []
    else if !Possible(w, es[0]) then Ends(w, es[1..])
    else
      (match es[0]
       case ChildEnds(pid, st) =>
         var id := w.launcher.watchers[pid];
         [Death(Died.Died(id, StatusValue(st)), pid in w.launcher.killed, id in w.orphans)]
       case _ => [])
      + Ends(Step(w, es[0]), es[1..])
  }

  lemma {:induction false} DeathsAreEnds(w: World, es: seq<Event>)
    ensures Run(w, es).deaths == w.deaths + Ends(w, es)
    decreases |es|
  {
    if es != [] {
      if Possible(w, es[0]) { DeathsAreEnds(Step(w, es[0]), es[1..]); } else { DeathsAreEnds(w, es[1..]); }
    }
  }

  ghost predicate OnePerPath(hosts: seq<Entry>) {
    forall i, j :: 0 <= i < j < |hosts| ==> hosts[i].path != hosts[j].path
  }

  /** Paths of 64 characters and more are cut off, so the same long path is launched twice. */
  lemma LongPathTwice(path: string, pid: Pid, pid': Pid, fd: Fd, fd': Fd)
    requires |path| >= PATH_SIZE
    ensures var s1 := Launch(Empty(), path, true, Some(pid), fd).0;
      var r := Launch(s1, path, true, Some(pid'), fd');
      r.1.Launched? && |r.0.hosts| == 2 && r.0.hosts[0].path == r.0.hosts[1].path
  {
    var s1 := Launch(Empty(), path, true, Some(pid), fd).0;
    assert |s1.hosts| == 1 && s1.hosts[0].path == Stored(path) && |Stored(path)| == PATH_SIZE - 1;
    assert FirstPath(s1.hosts, path, 0) == 1;
  }

  /** No launch of `path` gives two entries the same path. */
  ghost predicate KeepsPathsUnique(path: string) {
    forall s: Launcher, socket, spawn, fd :: OnePerPath(s.hosts) ==>
      OnePerPath(Launch(s, path, socket, spawn, fd).0.hosts)
  }

  /** A launch keeps one entry per path, on every table, exactly if its path fits the field. */
  lemma OnePerPathIff(path: string)
    ensures KeepsPathsUnique(path) <==> |path| < PATH_SIZE
  {
    if |path| < PATH_SIZE {
      forall s: Launcher, socket, spawn, fd | OnePerPath(s.hosts)
        ensures OnePerPath(Launch(s, path, socket, spawn, fd).0.hosts)
      {
        ShortKeepsUnique(s, path, socket, spawn, fd);
      }
    } else {
      LongPathTwice(path, 0, 0, 0, 0);
      var s1 := Launch(Empty(), path, true, Some(0), 0).0;
      assert OnePerPath(s1.hosts) && !OnePerPath(Launch(s1, path, true, Some(0), 0).0.hosts);
    }
  }

  lemma ShortKeepsUnique(s: Launcher, path: string, socket: bool, spawn: Option<Pid>, fd: Fd)
    requires OnePerPath(s.hosts) && |path| < PATH_SIZE
    ensures OnePerPath(Launch(s, path, socket, spawn, fd).0.hosts)
  {
    var k := FirstPath(s.hosts, path, 0);
    var rest := if k < |s.hosts| then RemoveFast(s.hosts, k) else s.hosts;
    if k < |s.hosts| { RemovedPaths(s.hosts, k); }
    assert forall i {:trigger rest[i]} :: 0 <= i < |rest| ==> rest[i].path != path;
  }

  lemma RemovedPaths(hosts: seq<Entry>, k: nat)
    requires OnePerPath(hosts) && k < |hosts|
    ensures var rest := RemoveFast(hosts, k);
      OnePerPath(rest) && forall i {:trigger rest[i]} :: 0 <= i < |rest| ==> rest[i].path != hosts[k].path
  {
  }

  // ---------------------------------------------------------------- what the answers say

  /** `e` is an entry of the table. */
  ghost predicate Listed(hosts: seq<Entry>, e: Entry) {
    exists i :: 0 <= i < |hosts| && hosts[i] == e
  }

  ghost predicate HasId(hosts: seq<Entry>, id: HostId) {
    exists i {:trigger hosts[i]} :: 0 <= i < |hosts| && hosts[i].id == id
  }

  /** Some host of this path can not, or can, be adopted. */
  ghost predicate HasPath(hosts: seq<Entry>, path: string, orphan: bool) {
    exists i {:trigger hosts[i]} :: 0 <= i < |hosts| && hosts[i].path == path && hosts[i].orphan == orphan
  }

  /** The id a launch answers is that of the new entry and of the watch on the new child, and no older
      host has it; so the client that got it can kill the host and orphan it. */
  lemma LaunchAnswers(w: World, path: string, socket: bool, pid: Pid, fd: Fd)
    requires Inv(w) && Possible(w, LaunchCall(path, socket, Some(pid), fd))
    requires Launch(w.launcher, path, socket, Some(pid), fd).1.Launched?
    ensures var (t, r) := Launch(w.launcher, path, socket, Some(pid), fd);
      && Listed(t.hosts, Entry(true, false, r.id, pid, fd, path)) && !HasId(w.launcher.hosts, r.id)
      && pid in t.watchers && t.watchers[pid] == r.id
      && Kill(t, r.id).1 == Killed && pid in Kill(t, r.id).0.killed
      && Orphan(t, r.id).1 == Orphaned && Adopt(Orphan(t, r.id).0, path).1 == Adopted(r.id)
  {
    var e := LaunchCall(path, socket, Some(pid), fd);
    var (t, r) := Launch(w.launcher, path, socket, Some(pid), fd);
    StepInv(w, e);
    assert Step(w, e).launcher == t;
    var last := |t.hosts| - 1;
    assert t.hosts[last] == Entry(true, false, r.id, pid, fd, path);
    forall i {:trigger w.launcher.hosts[i]} | 0 <= i < |w.launcher.hosts| ensures w.launcher.hosts[i].id != r.id {
      assert EntryOk(w, w.launcher.hosts[i]);
    }
    NewestIsFound(t.hosts, r.id);
    assert EntryOk(Step(w, e), t.hosts[last]);
    AdoptUndoesOrphan(Step(w, e), r.id);
  }

  lemma NewestIsFound(hosts: seq<Entry>, id: HostId)
    requires Distinct(hosts) && hosts != [] && hosts[|hosts| - 1].id == id
    ensures FirstId(hosts, id, 0) == |hosts| - 1
  {
    OtherIds(hosts, |hosts| - 1);
    assert hosts[|hosts| - 1].id == id;
  }

  /** When a launch is refused, and what it fails on. */
  lemma LaunchRefused(w: World, path: string, socket: bool, spawn: Option<Pid>, fd: Fd)
    requires Inv(w)
    ensures var (t, r) := Launch(w.launcher, path, socket, spawn, fd);
      && (r == InUse <==> HasPath(w.launcher.hosts, path, false))
      && (r == InUse ==> t == w.launcher)
      && (r == SocketFailed <==> r != InUse && !socket)
      && (r == SpawnFailed <==> r != InUse && socket && spawn.None?)
      && (r.Launched? <==> r != InUse && socket && spawn.Some?)
      && (r == SocketFailed || r == SpawnFailed ==> t.watchers == w.launcher.watchers && !HasPath(t.hosts, path, true))
  {
    var k := FirstPath(w.launcher.hosts, path, 0);
    if k < |w.launcher.hosts| {
      assert EntryOk(w, w.launcher.hosts[k]);
      OtherPaths(w.launcher.hosts, k);
    }
  }

  /** Kill and orphan find a host exactly by its id, adoption exactly the orphans of its path. */
  lemma CallsFind(w: World, id: HostId, path: string)
    requires Inv(w)
    ensures var s := w.launcher;
      && (Kill(s, id).1 == if HasId(s.hosts, id) then Killed else InvalidId)
      && (Kill(s, id).1 == InvalidId ==> Kill(s, id).0 == s)
      && (Orphan(s, id).1 == InvalidId <==> !HasId(s.hosts, id))
      && (Orphan(s, id).1 == AlreadyOrphan <==> HasId(s.hosts, id) && IsOrphan(s.hosts, id))
      && (Orphan(s, id).1 == Orphaned <==> HasId(s.hosts, id) && !IsOrphan(s.hosts, id))
      && (Adopt(s, path).1 == NothingToAdopt <==> !HasPath(s.hosts, path, true))
      && (Adopt(s, path).1 != NothingToAdopt ==> Adopt(s, path).1.Adopted? && HasId(s.hosts, Adopt(s, path).1.id))
  {
    var k, j := FirstId(w.launcher.hosts, id, 0), FirstOrphan(w.launcher.hosts, path, 0);
    if k < |w.launcher.hosts| {
      assert EntryOk(w, w.launcher.hosts[k]);
      OtherIds(w.launcher.hosts, k);
    }
    if j < |w.launcher.hosts| { assert EntryOk(w, w.launcher.hosts[j]); }
  }

  ghost predicate IsOrphan(hosts: seq<Entry>, id: HostId) {
    exists i {:trigger hosts[i]} :: 0 <= i < |hosts| && hosts[i].id == id && hosts[i].orphan
  }

  lemma OtherIds(hosts: seq<Entry>, k: nat)
    requires Distinct(hosts) && k < |hosts|
    ensures forall i {:trigger hosts[i]} :: 0 <= i < |hosts| && i != k ==> hosts[i].id != hosts[k].id
  {
    forall i {:trigger hosts[i]} | 0 <= i < |hosts| && i != k ensures hosts[i].id != hosts[k].id {
      if i < k { DistinctPair(hosts, i, k); } else { DistinctPair(hosts, k, i); }
    }
  }

  /** The value sent with HostDied tells an exit, by its code, from an end by a signal, by its number. */
  lemma StatusTells(code: nat, sig: nat)
    requires sig > 0
    ensures StatusValue(ExitCode(code)) == code && StatusValue(Signal(sig)) == StatusValue(StopSignal(sig)) == 0 - sig
    ensures StatusValue(Signal(sig)) < 0 <= StatusValue(ExitCode(code))
  {
  }

  // ---------------------------------------------------------------- what a call undoes

  /** Adopting the host of a path undoes orphaning it: same id, same table. */
  lemma AdoptUndoesOrphan(w: World, id: HostId)
    requires Inv(w) && Orphan(w.launcher, id).1 == Orphaned
    requires FirstId(w.launcher.hosts, id, 0) < |w.launcher.hosts| && w.launcher.hosts[FirstId(w.launcher.hosts, id, 0)].alive
    ensures var s1 := Orphan(w.launcher, id).0;
      Adopt(s1, w.launcher.hosts[FirstId(w.launcher.hosts, id, 0)].path) == (w.launcher, Adopted(id))
  {
    var s, k := w.launcher, FirstId(w.launcher.hosts, id, 0);
    var s1 := Orphan(s, id).0;
    assert EntryOk(w, s.hosts[k]);
    OtherPaths(s.hosts, k);
    assert forall i {:trigger s1.hosts[i]} :: 0 <= i < |s.hosts| && i != k ==> s1.hosts[i].path != s.hosts[k].path;
    assert s1.hosts[k].orphan && s1.hosts[k].path == s.hosts[k].path;
    assert FirstOrphan(s1.hosts, s.hosts[k].path, 0) == k;
    assert s1.hosts[k := s1.hosts[k].(orphan := false)] == s.hosts;
  }

  lemma OtherPaths(hosts: seq<Entry>, k: nat)
    requires Distinct(hosts) && k < |hosts|
    ensures forall i {:trigger hosts[i]} :: 0 <= i < |hosts| && i != k ==> hosts[i].path != hosts[k].path
  {
    forall i {:trigger hosts[i]} | 0 <= i < |hosts| && i != k ensures hosts[i].path != hosts[k].path {
      if i < k { DistinctPair(hosts, i, k); } else { DistinctPair(hosts, k, i); }
    }
  }

  /** A killed host is gone: its id finds no entry any more, and its process is killed unless it had ended. */
  lemma KillIsFinal(w: World, id: HostId)
    requires Inv(w) && Kill(w.launcher, id).1 == Killed
    ensures var k, t := FirstId(w.launcher.hosts, id, 0), Kill(w.launcher, id).0;
      && FirstId(t.hosts, id, 0) == |t.hosts| == |w.launcher.hosts| - 1
      && (w.launcher.hosts[k].pid in t.killed || w.launcher.hosts[k].pid !in t.watchers)
      && Kill(t, id).1 == Orphan(t, id).1 == InvalidId
  {
    var k := FirstId(w.launcher.hosts, id, 0);
    assert EntryOk(w, w.launcher.hosts[k]);
    FreedId(w.launcher.hosts, k);
    var t := Kill(w.launcher, id).0;
    assert forall i {:trigger t.hosts[i]} :: 0 <= i < |t.hosts| ==> t.hosts[i].id != id;
  }
}

/** launch.c itself. */
module HostLauncher {
  import opened Wrappers
  import opened LauncherSpec

  class HostTable {
    var hostsArray: seq<Entry>
    var nextHostId: HostId
    // effects on the system
    var openFds: set<Fd>
    var killed: set<Pid>
    var watchers: map<Pid, HostId>
    var signals: seq<Died>
    var failed: bool

    ghost function State(): Launcher
      reads this
    {
      Launcher(hostsArray, nextHostId, openFds, killed, watchers, signals)
    }

    constructor ()
      ensures State() == Empty() && !failed
    {
      hostsArray, nextHostId := [], 1;
      openFds, killed, watchers, signals, failed := {}, {}, map[], [], false;
    }

    /** `free_host` and `g_array_remove_index_fast`. */
    method FreeAndRemove(i: nat) returns (ok: bool)
      requires i < |hostsArray|
      modifies this`openFds, this`killed, this`hostsArray, this`failed
      ensures ok <==> old(hostsArray)[i].pipeFd in old(openFds)
      ensures ok ==> State() == Freed(old(State()), i) && failed == old(failed)
      ensures !ok ==> failed
    {
      var entry := hostsArray[i];
      if entry.alive { killed := killed + {entry.pid}; }
      if entry.pipeFd !in openFds {
        failed := true;
        return false;
      }
      openFds := openFds - {entry.pipeFd};
      var last := |hostsArray| - 1;
      hostsArray := hostsArray[i := hostsArray[last]][..last];
      return true;
    }

    method LaunchHostCall(path: string, socket: bool, spawn: Option<Pid>, fd: Fd) returns (r: Answer)
      modifies this
      ensures failed <==> old(failed) || Launch(old(State()), path, socket, spawn, fd).1 == AssertionFailed
      ensures !failed ==> (State(), r) == Launch(old(State()), path, socket, spawn, fd)
    {
      r := AssertionFailed;
      var i := 0;
      while i < |hostsArray|
        invariant i <= |hostsArray| && State() == old(State()) && failed == old(failed)
        invariant FirstPath(hostsArray, path, 0) == FirstPath(hostsArray, path, i)
      {
        var entry := hostsArray[i];
        if entry.path == path {
          if entry.orphan {
            var ok := FreeAndRemove(i);
            if !ok { return; }
            break;
          }
          return InUse;
        }
        i := i + 1;
      }
      ghost var s1 := State();
      if !socket { return SocketFailed; }
      if spawn.None? { return SpawnFailed; }
      var hostId := nextHostId;
      nextHostId := (nextHostId + 1) % GUINT_LIMIT;
      hostsArray := hostsArray + [Entry(true, false, hostId, spawn.value, fd, Stored(path))];
      openFds := openFds + {fd};
      watchers := watchers[spawn.value := hostId];
      return Launched(hostId);
    }

    method KillHostCall(id: HostId) returns (r: Answer)
      modifies this
      ensures failed <==> old(failed) || Kill(old(State()), id).1 == AssertionFailed
      ensures !failed ==> (State(), r) == Kill(old(State()), id)
    {
      r := AssertionFailed;
      var i := 0;
      while i < |hostsArray|
        invariant i <= |hostsArray| && State() == old(State()) && failed == old(failed)
        invariant FirstId(hostsArray, id, 0) == FirstId(hostsArray, id, i)
      {
        if hostsArray[i].id == id {
          var ok := FreeAndRemove(i);
          if ok { r := Killed; }
          return;
        }
        i := i + 1;
      }
      return InvalidId;
    }

    method AdoptHostCall(path: string) returns (r: Answer)
      modifies this
      ensures failed <==> old(failed) || Adopt(old(State()), path).1 == AssertionFailed
      ensures !failed ==> (State(), r) == Adopt(old(State()), path)
    {
      r := AssertionFailed;
      var i := 0;
      while i < |hostsArray|
        invariant i <= |hostsArray| && State() == old(State()) && failed == old(failed)
        invariant FirstOrphan(hostsArray, path, 0) == FirstOrphan(hostsArray, path, i)
      {
        var entry := hostsArray[i];
        if entry.orphan && entry.path == path {
          if !entry.alive || entry.pipeFd !in openFds {
            failed := true;
            return;
          }
          hostsArray := hostsArray[i := entry.(orphan := false)];
          return Adopted(entry.id);
        }
        i := i + 1;
      }
      return NothingToAdopt;
    }

    method OrphanHostCall(id: HostId) returns (r: Answer)
      modifies this
      ensures failed <==> old(failed) || Orphan(old(State()), id).1 == AssertionFailed
      ensures !failed ==> (State(), r) == Orphan(old(State()), id)
    {
      r := AssertionFailed;
      var i := 0;
      while i < |hostsArray|
        invariant i <= |hostsArray| && State() == old(State()) && failed == old(failed)
        invariant FirstId(hostsArray, id, 0) == FirstId(hostsArray, id, i)
      {
        var entry := hostsArray[i];
        if entry.id == id {
          if entry.orphan {
            if !entry.alive {
              failed := true;
              return;
            }
            return AlreadyOrphan;
          } else if !entry.alive {
            var ok := FreeAndRemove(i);
            if ok { r := Orphaned; }
            return;
          }
          hostsArray := hostsArray[i := entry.(orphan := true)];
          return Orphaned;
        }
        i := i + 1;
      }
      return InvalidId;
    }

    method HostWatchCb(pid: Pid, st: WaitStatus, id: HostId) returns (r: Answer)
      modifies this
      ensures failed <==> old(failed) || Watch(old(State()), pid, id, st).1 == AssertionFailed
      ensures !failed ==> (State(), r) == Watch(old(State()), pid, id, st)
    {
      r := AssertionFailed;
      var status := StatusValue(st);
      hide StatusValue;
      watchers := watchers - {pid};
      ghost var s1 := State();
      var i := 0;
      while i < |hostsArray|
        invariant i <= |hostsArray| && State() == s1 && failed == old(failed)
        invariant FirstId(hostsArray, id, 0) == FirstId(hostsArray, id, i)
        invariant forall j :: 0 <= j < i ==> hostsArray[j].pid != pid
      {
        var entry := hostsArray[i];
        if entry.id == id {
          if pid != entry.pid {
            failed := true;
            return;
          }
          if entry.alive {
            if entry.orphan {
              var ok := FreeAndRemove(i);
              if ok { r := Reaped; }
              return;
            }
            signals := signals + [Died.Died(id, status)];
          } else if entry.orphan {
            failed := true;
            return;
          }
          hostsArray := hostsArray[i := entry.(alive := false)];
          return Reaped;
        } else if pid == entry.pid {
          failed := true;
          return;
        }
        i := i + 1;
      }
      return Reaped;
    }
  }
}
