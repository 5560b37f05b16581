/** Folding kernel events into a process snapshot (internal/collector/merge.go). */
module Merge {
  import opened Wire

  datatype Process = Process(
    pid: int,
    name: string,
    path: string,
    cmdline: string,
    user: string,
    startTicks: string,
    ppid: int,
    parentName: string,
    euid: string,
    containerID: string)

  datatype Connection = Connection(
    protocol: string,
    localAddr: string,
    localPort: int,
    remoteAddr: string,
    remotePort: int,
    state: string)

  datatype KernelEvent =
    | ExecEvent(pid: nat, comm: string, filename: string)
    | ConnectEvent(family: nat, daddr: string, dport: nat)
    | OtherEvent

  datatype Snapshot = Snapshot(processes: seq<Process>, connections: seq<Connection>)

  function ProtocolFromFamily(family: nat): string {
    if family == 2 then "tcp" else if family == 10 then "tcp6" else if family == 1 then "unix" else "unknown"
  }

  // ---------------------------------------------------------------- the linear-scan reference

  /** The last process with this identifier; -1 when there is none. */
  function FindLast(ps: seq<Process>, pid: int): (i: int)
    ensures -1 <= i < |ps|
    ensures i >= 0 ==> ps[i].pid == pid
    ensures forall j :: i < j < |ps| ==> ps[j].pid != pid
  {
    if ps == [] then -1 else if ps[|ps| - 1].pid == pid then |ps| - 1 else FindLast(ps[..|ps| - 1], pid)
  }

  /** The kernel's view wins where it has one. */
  function Override(p: Process, comm: string, filename: string): Process {
    p.(name := if comm != "" then comm else p.name, path := if filename != "" then filename else p.path)
  }

  function NewProcess(pid: int, comm: string, filename: string): Process {
    Process(pid, comm, filename, comm, "", "", 0, "", "", "")
  }

  function ApplyOne(s: Snapshot, e: KernelEvent): Snapshot {
    match e
    case ExecEvent(pid, comm, filename) =>
      var i := FindLast(s.processes, pid);
      s.(processes := if i >= 0 then s.processes[i := Override(s.processes[i], comm, filename)]
                      else s.processes + [NewProcess(pid, comm, filename)])
    case ConnectEvent(family, daddr, dport) =>
      s.(connections := s.connections + [Connection(ProtocolFromFamily(family), "", 0, daddr, dport, "")])
    case OtherEvent => s
  }

  function Apply(s: Snapshot, events: seq<KernelEvent>): Snapshot {
    if events == [] then s else ApplyOne(Apply(s, events[..|events| - 1]), events[|events| - 1])
  }

  // ---------------------------------------------------------------- the indexed merge

  /** The index maps each identifier to its last process. */
  ghost predicate Indexes(index: map<int, nat>, ps: seq<Process>) {
    && (forall pid :: pid in index <==> FindLast(ps, pid) >= 0)
    && (forall pid :: pid in index ==> index[pid] == FindLast(ps, pid))
  }

  lemma FindUpdated(ps: seq<Process>, i: nat, p: Process, pid: int)
    requires i < |ps| && p.pid == ps[i].pid
    ensures FindLast(ps[i := p], pid) == FindLast(ps, pid)
  {
    var qs := ps[i := p];
    assert forall j :: 0 <= j < |ps| ==> qs[j].pid == ps[j].pid;
    var a, b := FindLast(ps, pid), FindLast(qs, pid);
    assert a >= 0 ==> qs[a].pid == pid;
    assert b >= 0 ==> ps[b].pid == pid;
  }

  lemma FindSnoc(ps: seq<Process>, p: Process, pid: int)
    ensures FindLast(ps + [p], pid) == if p.pid == pid then |ps| else FindLast(ps, pid)
  {
    assert (ps + [p])[..|ps|] == ps;
  }

  lemma ApplySnoc(s: Snapshot, events: seq<KernelEvent>, n: nat)
    requires n < |events|
    ensures Apply(s, events[..n + 1]) == ApplyOne(Apply(s, events[..n]), events[n])
  {
    assert events[..n + 1][..n] == events[..n];
  }

  class Merger {
    var processes: seq<Process>
    var connections: seq<Connection>
    var drained: nat

    function View(): Snapshot
      reads this
    {
      Snapshot(processes, connections)
    }

    constructor (s: Snapshot)
      ensures View() == s && drained == 0
    {
      processes, connections, drained := s.processes, s.connections, 0;
    }

    method BuildIndex() returns (index: map<int, nat>)
      ensures Indexes(index, processes)
    {
      index := map[];
      for i := 0 to |processes|
        invariant Indexes(index, processes[..i])
      {
        assert processes[..i + 1] == processes[..i] + [processes[i]];
        forall pid
          ensures FindLast(processes[..i + 1], pid) ==
                  if processes[i].pid == pid then i else FindLast(processes[..i], pid)
        {
          FindSnoc(processes[..i], processes[i], pid);
        }
        index := index[processes[i].pid := i];
      }
      assert processes[..|processes|] == processes;
    }

    method ApplyExec(index: map<int, nat>, pid: nat, comm: string, filename: string) returns (index': map<int, nat>)
      requires Indexes(index, processes)
      modifies this`processes
      ensures View() == ApplyOne(old(View()), ExecEvent(pid, comm, filename))
      ensures Indexes(index', processes)
    {
      ghost var before := processes;
      index' := index;
      if pid in index {
        var i := index[pid];
        processes := processes[i := Override(processes[i], comm, filename)];
        forall q
          ensures FindLast(processes, q) == FindLast(before, q)
        {
          FindUpdated(before, i, Override(before[i], comm, filename), q);
        }
        return;
      }
      processes := processes + [NewProcess(pid, comm, filename)];
      index' := index[pid := |processes| - 1];
      forall q
        ensures FindLast(processes, q) == if q == pid then |before| else FindLast(before, q)
      {
        FindSnoc(before, NewProcess(pid, comm, filename), q);
      }
    }

    method ApplyEvent(index: map<int, nat>, e: KernelEvent) returns (index': map<int, nat>)
      requires Indexes(index, processes)
      modifies this`processes, this`connections
      ensures View() == ApplyOne(old(View()), e)
      ensures Indexes(index', processes)
    {
      index' := index;
      match e {
        case ExecEvent(pid, comm, filename) => index' := ApplyExec(index, pid, comm, filename);
        case ConnectEvent(family, daddr, dport) =>
          connections := connections + [Connection(ProtocolFromFamily(family), "", 0, daddr, dport, "")];
        case OtherEvent =>
      }
    }

    method MergeAll(events: seq<KernelEvent>)
      modifies this`processes, this`connections
      ensures View() == Apply(old(View()), events)
    {
      var index := BuildIndex();
      for n := 0 to |events|
        invariant Indexes(index, processes)
        invariant View() == Apply(old(View()), events[..n])
      {
        ApplySnoc(old(View()), events, n);
        index := ApplyEvent(index, events[n]);
      }
      assert events[..|events|] == events;
    }

    method ApplyEvents(events: seq<KernelEvent>)
      modifies this
      ensures View() == Apply(old(View()), events)
      ensures drained == Counted(old(drained), |events|)
    {
      if events == [] {
        return;
      }
      MergeAll(events);
      drained := (drained + |events|) % UINT64;
    }
  }

  // ---------------------------------------------------------------- splitting a batch

  /** Cutting a batch anywhere gives the same snapshot. */
  lemma {:induction false} ApplySplit(s: Snapshot, a: seq<KernelEvent>, b: seq<KernelEvent>)
    ensures Apply(s, a + b) == Apply(Apply(s, a), b)
  {
    if b == [] {
      assert a + b == a;
    } else {
      assert (a + b)[..|a + b| - 1] == a + b[..|b| - 1];
      ApplySplit(s, a, b[..|b| - 1]);
    }
  }

  /** The indexed merge in two batches, each with an index of its own, is the merge in one. */
  method SplitBatch(m: Merger, a: seq<KernelEvent>, b: seq<KernelEvent>)
    requires m.drained < UINT64
    modifies m
    ensures m.View() == Apply(old(m.View()), a + b)
    ensures m.drained == (old(m.drained) + |a + b|) % UINT64
  {
    ApplySplit(m.View(), a, b);
    CountedTwice(m.drained, |a|, |b|);
    m.ApplyEvents(a);
    m.ApplyEvents(b);
  }

  /** The counter after `n` more events; an empty batch leaves it alone. */
  function Counted(x: nat, n: nat): nat {
    if n == 0 then x else (x + n) % UINT64
  }

  lemma CountedTwice(x: nat, a: nat, b: nat)
    requires x < UINT64
    ensures Counted(Counted(x, a), b) == (x + (a + b)) % UINT64
  {
  }

  // ---------------------------------------------------------------- what a batch amounts to

  /** The last non-empty command name executed under this identifier. */
  function LastComm(events: seq<KernelEvent>, pid: int, default: string): string {
    if events == [] then default else
    var e := events[|events| - 1];
    if e.ExecEvent? && e.pid == pid && e.comm != "" then e.comm else LastComm(events[..|events| - 1], pid, default)
  }

  function LastFile(events: seq<KernelEvent>, pid: int, default: string): string {
    if events == [] then default else
    var e := events[|events| - 1];
    if e.ExecEvent? && e.pid == pid && e.filename != "" then e.filename
    else LastFile(events[..|events| - 1], pid, default)
  }

  /** The command name of the first execution under this identifier. */
  function FirstComm(events: seq<KernelEvent>, pid: int): string {
    if events == [] then "" else
    if events[0].ExecEvent? && events[0].pid == pid then events[0].comm else FirstComm(events[1..], pid)
  }

  /** Identifiers executed but not in the snapshot, in the order first seen. */
  function NewPids(ps: seq<Process>, events: seq<KernelEvent>): seq<int> {
    if events == [] then [] else
    var known, e := NewPids(ps, events[..|events| - 1]), events[|events| - 1];
    if e.ExecEvent? && FindLast(ps, e.pid) < 0 && e.pid !in known then known + [e.pid] else known
  }

  function Overlay(p: Process, events: seq<KernelEvent>): Process {
    p.(name := LastComm(events, p.pid, p.name), path := LastFile(events, p.pid, p.path))
  }

  function Newcomer(pid: int, events: seq<KernelEvent>): Process {
    Overlay(NewProcess(pid, "", "").(cmdline := FirstComm(events, pid)), events)
  }

  predicate Runs(e: KernelEvent, pid: int) {
    e.ExecEvent? && e.pid == pid
  }

  ghost predicate Seen(events: seq<KernelEvent>, pid: int) {
    exists i :: 0 <= i < |events| && Runs(events[i], pid)
  }

  /** Process `i` of the merged list: snapshot processes keep their places and the last one of each
      identifier takes the last non-empty name and path; newcomers follow. */
  function Elem(ps: seq<Process>, events: seq<KernelEvent>, added: seq<int>, i: nat): Process
    requires i < |ps| + |added|
  {
    if i >= |ps| then Newcomer(added[i - |ps|], events)
    else if FindLast(ps, ps[i].pid) == i then Overlay(ps[i], events) else ps[i]
  }

  ghost predicate Amounts(ps: seq<Process>, events: seq<KernelEvent>, result: seq<Process>) {
    var added := NewPids(ps, events);
    && |result| == |ps| + |added|
    && (forall i :: 0 <= i < |result| ==> result[i] == Elem(ps, events, added, i))
  }

  lemma OverlaySnoc(p: Process, events: seq<KernelEvent>, e: KernelEvent)
    ensures Overlay(p, events + [e]) ==
            if Runs(e, p.pid) then Override(Overlay(p, events), e.comm, e.filename) else Overlay(p, events)
  {
    assert (events + [e])[..|events|] == events;
  }

  lemma {:induction false} FirstCommSnoc(events: seq<KernelEvent>, e: KernelEvent, pid: int)
    ensures FirstComm(events + [e], pid) ==
            if Seen(events, pid) then FirstComm(events, pid) else if Runs(e, pid) then e.comm else ""
  {
    if events == [] {
      assert events + [e] == [e] && [e][1..] == [];
    } else if Runs(events[0], pid) {
      assert (events + [e])[0] == events[0];
    } else {
      assert (events + [e])[1..] == events[1..] + [e];
      FirstCommSnoc(events[1..], e, pid);
      if Seen(events, pid) {
        var i :| 0 <= i < |events| && Runs(events[i], pid);
        assert Runs(events[1..][i - 1], pid);
      }
      if Seen(events[1..], pid) {
        var i :| 0 <= i < |events[1..]| && Runs(events[1..][i], pid);
        assert Runs(events[i + 1], pid);
      }
    }
  }

  lemma {:induction false} NotSeen(events: seq<KernelEvent>, pid: int, default: string)
    requires !Seen(events, pid)
    ensures LastComm(events, pid, default) == default && LastFile(events, pid, default) == default
  {
    if events != [] {
      var n := |events| - 1;
      assert !Runs(events[n], pid);
      assert forall i :: 0 <= i < n ==> events[..n][i] == events[i];
      NotSeen(events[..n], pid, default);
    }
  }

  lemma SeenSnoc(events: seq<KernelEvent>, e: KernelEvent, pid: int)
    ensures Seen(events + [e], pid) <==> Seen(events, pid) || Runs(e, pid)
  {
    var all := events + [e];
    assert all[|events|] == e;
    if Seen(events, pid) {
      var i :| 0 <= i < |events| && Runs(events[i], pid);
      assert Runs(all[i], pid);
    }
  }

  ghost predicate Holds(s: seq<int>, x: int) {
    exists i :: 0 <= i < |s| && s[i] == x
  }

  /** The newcomers are the executed identifiers the snapshot does not have, each once. */
  lemma {:induction false} NewPidsMeaning(ps: seq<Process>, events: seq<KernelEvent>)
    ensures forall pid :: Holds(NewPids(ps, events), pid) <==> Seen(events, pid) && FindLast(ps, pid) < 0
    ensures forall i, j :: 0 <= i < j < |NewPids(ps, events)| ==> NewPids(ps, events)[i] != NewPids(ps, events)[j]
  {
    if events != [] {
      var n := |events| - 1;
      var known, e := NewPids(ps, events[..n]), events[n];
      NewPidsMeaning(ps, events[..n]);
      assert events[..n] + [e] == events;
      forall pid
        ensures Holds(NewPids(ps, events), pid) <==> Seen(events, pid) && FindLast(ps, pid) < 0
      {
        SeenSnoc(events[..n], e, pid);
        HoldsSnoc(known, pid, if e.ExecEvent? then e.pid else 0);
        assert Holds(known, pid) <==> pid in known;
      }
    }
  }

  lemma HoldsSnoc(s: seq<int>, x: int, y: int)
    ensures Holds(s + [y], x) <==> Holds(s, x) || x == y
  {
    var all := s + [y];
    assert all[|s|] == y;
    if Holds(s, x) {
      var i :| 0 <= i < |s| && s[i] == x;
      assert all[i] == x;
    }
  }

  /** Where an identifier is found in the merged list. */
  lemma FindMerged(ps: seq<Process>, events: seq<KernelEvent>, result: seq<Process>, pid: int, k: int)
    requires Amounts(ps, events, result)
    requires -1 <= k < |result| && (k >= 0 ==> result[k].pid == pid)
    requires if k < |ps| then k == FindLast(ps, pid) && !Holds(NewPids(ps, events), pid)
             else NewPids(ps, events)[k - |ps|] == pid
    ensures FindLast(result, pid) == k
  {
    NewPidsMeaning(ps, events);
    var added := NewPids(ps, events);
    forall j | k < j < |result|
      ensures result[j].pid != pid
    {
      assert result[j] == Elem(ps, events, added, j);
    }
  }

  lemma NewcomerSnoc(pid: int, events: seq<KernelEvent>, e: KernelEvent)
    ensures Seen(events, pid) ==>
              Newcomer(pid, events + [e]) ==
              if Runs(e, pid) then Override(Newcomer(pid, events), e.comm, e.filename) else Newcomer(pid, events)
    ensures !Seen(events, pid) && Runs(e, pid) ==> Newcomer(pid, events + [e]) == NewProcess(pid, e.comm, e.filename)
  {
    FirstCommSnoc(events, e, pid);
    OverlaySnoc(NewProcess(pid, "", "").(cmdline := FirstComm(events + [e], pid)), events, e);
    if !Seen(events, pid) {
      NotSeen(events, pid, "");
    }
  }

  /** One more event, seen from one place of the merged list. */
  lemma ElemSnoc(ps: seq<Process>, events: seq<KernelEvent>, e: KernelEvent, i: nat)
    requires i < |ps| + |NewPids(ps, events)|
    ensures var added := NewPids(ps, events);
            var x := Elem(ps, events, added, i);
            Elem(ps, events + [e], added, i) ==
            if Runs(e, x.pid) && (i < |ps| ==> FindLast(ps, x.pid) == i) then Override(x, e.comm, e.filename) else x
  {
    var added := NewPids(ps, events);
    if i < |ps| {
      OverlaySnoc(ps[i], events, e);
    } else {
      NewPidsMeaning(ps, events);
      assert Holds(added, added[i - |ps|]);
      NewcomerSnoc(added[i - |ps|], events, e);
    }
  }

  /** An event that changes no process. */
  lemma AmountsOther(ps: seq<Process>, events: seq<KernelEvent>, result: seq<Process>, e: KernelEvent)
    requires Amounts(ps, events, result) && !e.ExecEvent?
    ensures Amounts(ps, events + [e], result)
  {
    assert (events + [e])[..|events|] == events;
    forall i | 0 <= i < |result|
      ensures result[i] == Elem(ps, events + [e], NewPids(ps, events), i)
    {
      ElemSnoc(ps, events, e, i);
    }
  }

  /** Position `k` is the only one an execution under its identifier touches. */
  lemma OnlyPlace(ps: seq<Process>, events: seq<KernelEvent>, pid: int, k: nat, i: nat)
    requires var added := NewPids(ps, events);
             && k < |ps| + |added| && i < |ps| + |added|
             && if k < |ps| then k == FindLast(ps, pid) else added[k - |ps|] == pid
    ensures var x := Elem(ps, events, NewPids(ps, events), i);
            x.pid == pid && (i < |ps| ==> FindLast(ps, x.pid) == i) <==> i == k
  {
    var added := NewPids(ps, events);
    NewPidsMeaning(ps, events);
    if k >= |ps| {
      assert Holds(added, added[k - |ps|]);
    }
    if i >= |ps| {
      assert Holds(added, added[i - |ps|]);
    }
  }

  /** An execution under an identifier already in the list, at position `k`. */
  lemma AmountsUpdate(ps: seq<Process>, events: seq<KernelEvent>, result: seq<Process>, e: KernelEvent, k: nat)
    requires Amounts(ps, events, result) && e.ExecEvent? && k < |result|
    requires if k < |ps| then k == FindLast(ps, e.pid) else NewPids(ps, events)[k - |ps|] == e.pid
    requires NewPids(ps, events + [e]) == NewPids(ps, events)
    ensures Amounts(ps, events + [e], result[k := Override(result[k], e.comm, e.filename)])
  {
    forall i | 0 <= i < |result|
      ensures Elem(ps, events + [e], NewPids(ps, events), i) ==
              if i == k then Override(result[k], e.comm, e.filename) else result[i]
    {
      ElemSnoc(ps, events, e, i);
      OnlyPlace(ps, events, e.pid, k, i);
    }
  }

  /** An execution under an identifier seen for the first time. */
  lemma AmountsAppend(ps: seq<Process>, events: seq<KernelEvent>, result: seq<Process>, e: KernelEvent)
    requires Amounts(ps, events, result) && e.ExecEvent? && FindLast(ps, e.pid) < 0 && !Seen(events, e.pid)
    requires NewPids(ps, events + [e]) == NewPids(ps, events) + [e.pid]
    ensures Amounts(ps, events + [e], result + [NewProcess(e.pid, e.comm, e.filename)])
  {
    var added := NewPids(ps, events);
    NewPidsMeaning(ps, events);
    forall i | 0 <= i < |result|
      ensures result[i] == Elem(ps, events + [e], added + [e.pid], i)
    {
      ElemSnoc(ps, events, e, i);
      assert i >= |ps| ==> Holds(added, added[i - |ps|]);
    }
    NewcomerSnoc(e.pid, events, e);
  }

  lemma AmountsStep(ps: seq<Process>, events: seq<KernelEvent>, s: Snapshot, e: KernelEvent)
    requires Amounts(ps, events, s.processes)
    ensures Amounts(ps, events + [e], ApplyOne(s, e).processes)
  {
    var result, added := s.processes, NewPids(ps, events);
    assert (events + [e])[..|events|] == events;
    NewPidsMeaning(ps, events);
    if !e.ExecEvent? {
      AmountsOther(ps, events, result, e);
    } else if FindLast(ps, e.pid) >= 0 {
      FindMerged(ps, events, result, e.pid, FindLast(ps, e.pid));
      AmountsUpdate(ps, events, result, e, FindLast(ps, e.pid));
    } else if Holds(added, e.pid) {
      var i :| 0 <= i < |added| && added[i] == e.pid;
      assert result[|ps| + i] == Elem(ps, events, added, |ps| + i);
      assert e.pid in added;
      FindMerged(ps, events, result, e.pid, |ps| + i);
      AmountsUpdate(ps, events, result, e, |ps| + i);
    } else {
      assert e.pid !in added;
      FindMerged(ps, events, result, e.pid, -1);
      AmountsAppend(ps, events, result, e);
    }
  }

  /** The connections a batch opens, in order. */
  function Opened(events: seq<KernelEvent>): seq<Connection> {
    if events == [] then [] else
    var e := events[|events| - 1];
    Opened(events[..|events| - 1]) +
    if e.ConnectEvent? then [Connection(ProtocolFromFamily(e.family), "", 0, e.daddr, e.dport, "")] else []
  }

  /** What a batch amounts to, in closed form: ring-0 names and paths win, newest non-empty first;
      new processes are appended in the order first seen; everything else is untouched. */
  lemma ApplyAmounts(s: Snapshot, events: seq<KernelEvent>)
    ensures Amounts(s.processes, events, Apply(s, events).processes)
    ensures Apply(s, events).connections == s.connections + Opened(events)
  {
    ProcessAmounts(s, events);
    ConnectionAmounts(s, events);
  }

  lemma {:induction false} ProcessAmounts(s: Snapshot, events: seq<KernelEvent>)
    ensures Amounts(s.processes, events, Apply(s, events).processes)
  {
    if events != [] {
      var n := |events| - 1;
      ProcessAmounts(s, events[..n]);
      AmountsStep(s.processes, events[..n], Apply(s, events[..n]), events[n]);
      assert events[..n] + [events[n]] == events;
    }
  }

  lemma {:induction false} ConnectionAmounts(s: Snapshot, events: seq<KernelEvent>)
    ensures Apply(s, events).connections == s.connections + Opened(events)
  {
    if events != [] {
      ConnectionAmounts(s, events[..|events| - 1]);
    }
  }

  function ConnectCount(events: seq<KernelEvent>): nat {
    if events == [] then 0
    else ConnectCount(events[..|events| - 1]) + if events[|events| - 1].ConnectEvent? then 1 else 0
  }

  lemma {:induction false} OpenedAt(events: seq<KernelEvent>, i: nat)
    requires i < |events| && events[i].ConnectEvent?
    ensures |Opened(events)| == ConnectCount(events) && ConnectCount(events[..i]) < ConnectCount(events)
    ensures var e := events[i];
            Opened(events)[ConnectCount(events[..i])]
            == Connection(ProtocolFromFamily(e.family), "", 0, e.daddr, e.dport, "")
  {
    var n := |events| - 1;
    OpenedCount(events);
    OpenedCount(events[..n]);
    if i < n {
      OpenedAt(events[..n], i);
      assert events[..n][..i] == events[..i];
    }
  }

  lemma {:induction false} OpenedCount(events: seq<KernelEvent>)
    ensures |Opened(events)| == ConnectCount(events)
  {
    if events != [] {
      OpenedCount(events[..|events| - 1]);
    }
  }

  /** Each connect event is found in its place, under the name of its address family. */
  lemma ConnectionAt(s: Snapshot, events: seq<KernelEvent>, i: nat)
    requires i < |events| && events[i].ConnectEvent?
    ensures var at, all := |s.connections| + ConnectCount(events[..i]), Apply(s, events).connections;
            && at < |all| && all[at].remoteAddr == events[i].daddr && all[at].remotePort == events[i].dport
            && all[at].localAddr == "" && all[at].localPort == 0 && all[at].state == ""
            && (all[at].protocol == "tcp" <==> events[i].family == 2)
            && (all[at].protocol == "tcp6" <==> events[i].family == 10)
            && (all[at].protocol == "unix" <==> events[i].family == 1)
            && (all[at].protocol == "unknown" <==> events[i].family !in {1, 2, 10})
  {
    ApplyAmounts(s, events);
    OpenedAt(events, i);
  }
}
