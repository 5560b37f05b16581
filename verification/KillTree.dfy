/** Killing a process and its descendants, children first (internal/response/killtree.go). */
module KillTree {
  import opened Wire

  /** Process identifier to parent identifier; nothing rules out cycles. */
  type Tree = map<int, int>

  datatype Node = Node(pid: int, ppid: int, depth: nat)

  /** The `n`-th ancestor. */
  function Up(t: Tree, pid: int, n: nat): Option<int>
    decreases n
  {
    if n == 0 then Some(pid) else if pid in t then Up(t, t[pid], n - 1) else None
  }

  ghost predicate Reaches(t: Tree, pid: int, target: int) {
    exists n: nat :: Up(t, pid, n) == Some(target)
  }

  /** The least number of parent steps from `pid` to `target` is `n`. */
  ghost predicate Distance(t: Tree, pid: int, target: int, n: nat) {
    Up(t, pid, n) == Some(target) && forall m: nat :: m < n ==> Up(t, pid, m) != Some(target)
  }

  lemma ChildDistance(t: Tree, pid: int, target: int, n: nat)
    requires pid in t && pid != target && Distance(t, t[pid], target, n)
    ensures Distance(t, pid, target, n + 1)
  {
    forall m: nat | m < n + 1
      ensures Up(t, pid, m) != Some(target)
    {
      if m > 0 {
        assert Up(t, pid, m) == Up(t, t[pid], m - 1);
      }
    }
  }

  lemma ParentDistance(t: Tree, pid: int, target: int, n: nat)
    requires Distance(t, pid, target, n) && pid != target
    ensures n > 0 && pid in t && Distance(t, t[pid], target, n - 1)
  {
    forall m: nat | m < n - 1
      ensures Up(t, t[pid], m) != Some(target)
    {
      assert Up(t, pid, m + 1) == Up(t, t[pid], m);
    }
  }

  // ---------------------------------------------------------------- finding the descendants

  ghost predicate Distinct(nodes: seq<Node>) {
    forall i, j :: 0 <= i < j < |nodes| ==> nodes[i].pid != nodes[j].pid
  }

  function Pids(nodes: seq<Node>): set<int> {
    set i | 0 <= i < |nodes| :: nodes[i].pid
  }

  ghost predicate Placed(t: Tree, target: int, nodes: seq<Node>) {
    forall i :: 0 <= i < |nodes| ==> PlacedNode(t, target, nodes[i])
  }

  ghost predicate PlacedNode(t: Tree, target: int, x: Node) {
    Distance(t, x.pid, target, x.depth) && x.ppid == if x.pid != target && x.pid in t then t[x.pid] else 0
  }

  /** Exactly the processes whose parent chain reaches the target, each once, at its depth. */
  ghost predicate Descendants(t: Tree, target: int, nodes: seq<Node>) {
    Distinct(nodes) && Placed(t, target, nodes) && forall pid :: Reaches(t, pid, target) ==> pid in Pids(nodes)
  }

  ghost predicate ChildrenIn(t: Tree, parent: int, visited: set<int>) {
    forall pid :: pid in t && t[pid] == parent ==> pid in visited
  }

  ghost predicate FreshChildren(t: Tree, current: Node, visited: set<int>, added: seq<Node>) {
    && Distinct(added)
    && forall i :: 0 <= i < |added| ==> FreshChild(t, current, visited, added[i])
  }

  ghost predicate FreshChild(t: Tree, current: Node, visited: set<int>, x: Node) {
    && x.pid in t && t[x.pid] == current.pid && x.pid !in visited
    && x.ppid == current.pid && x.depth == current.depth + 1
  }

  lemma FreshSnoc(t: Tree, current: Node, visited: set<int>, added: seq<Node>, x: Node)
    requires FreshChildren(t, current, visited, added) && FreshChild(t, current, visited, x) && x.pid !in Pids(added)
    ensures FreshChildren(t, current, visited, added + [x])
    ensures Pids(added + [x]) == Pids(added) + {x.pid}
  {
    PidsSnoc(added, x);
  }

  /** The children outside `todo` are in `seen`. */
  ghost predicate LookedAt(t: Tree, parent: int, todo: set<int>, seen: set<int>) {
    forall pid :: pid in t && pid !in todo && t[pid] == parent ==> pid in seen
  }

  ghost predicate ExpandInv(t: Tree, current: Node, visited: set<int>, added: seq<Node>, seen: set<int>,
                            todo: set<int>) {
    todo <= t.Keys && seen == visited + Pids(added) && FreshChildren(t, current, visited, added)
    && LookedAt(t, current.pid, todo, seen)
  }

  lemma ExpandAdds(t: Tree, current: Node, visited: set<int>, added: seq<Node>, seen: set<int>, todo: set<int>,
                   pid: int)
    requires ExpandInv(t, current, visited, added, seen, todo) && pid in todo
    requires t[pid] == current.pid && pid !in seen
    ensures ExpandInv(t, current, visited, added + [Node(pid, current.pid, current.depth + 1)], seen + {pid},
                      todo - {pid})
  {
    FreshSnoc(t, current, visited, added, Node(pid, current.pid, current.depth + 1));
  }

  /** The inner loop: the unvisited children of one process, in whatever order the map gives them. */
  method Expand(t: Tree, current: Node, visited: set<int>) returns (added: seq<Node>)
    ensures FreshChildren(t, current, visited, added)
    ensures ChildrenIn(t, current.pid, visited + Pids(added))
  {
    added := [];
    var seen := visited;
    var todo := t.Keys;
    assert Pids([]) == {};
    while todo != {}
      invariant ExpandInv(t, current, visited, added, seen, todo)
      decreases |todo|
    {
      var pid := AnyOf(todo);
      if t[pid] == current.pid && pid !in seen {
        ExpandAdds(t, current, visited, added, seen, todo, pid);
        seen := seen + {pid};
        added := added + [Node(pid, current.pid, current.depth + 1)];
      }
      todo := todo - {pid};
    }
  }

  /** The next key of a map iteration: any one of those left. */
  method AnyOf<T>(s: set<T>) returns (x: T)
    requires s != {}
    ensures x in s
  {
    x :| x in s;
  }

  lemma PidsSnoc(nodes: seq<Node>, x: Node)
    ensures Pids(nodes + [x]) == Pids(nodes) + {x.pid}
    ensures x.pid !in Pids(nodes) && Distinct(nodes) ==> Distinct(nodes + [x])
  {
    var all := nodes + [x];
    assert all[|nodes|] == x;
    forall p | p in Pids(nodes)
      ensures p in Pids(all)
    {
      var i :| 0 <= i < |nodes| && nodes[i].pid == p;
      assert all[i].pid == p;
    }
    forall i | 0 <= i < |nodes|
      ensures nodes[i].pid in Pids(nodes)
    {
    }
  }

  lemma PidsConcat(a: seq<Node>, b: seq<Node>)
    ensures Pids(a + b) == Pids(a) + Pids(b)
  {
    var all := a + b;
    forall p | p in Pids(a) + Pids(b)
      ensures p in Pids(all)
    {
      if p in Pids(a) {
        var i :| 0 <= i < |a| && a[i].pid == p;
        assert all[i].pid == p;
      } else {
        var i :| 0 <= i < |b| && b[i].pid == p;
        assert all[|a| + i].pid == p;
      }
    }
  }

  /** What the search keeps: `done` and `queue` together list the visited processes, each once and
      at its depth, and the children of everything done are visited. */
  ghost predicate SearchInv(t: Tree, target: int, done: seq<Node>, queue: seq<Node>, visited: set<int>) {
    && visited == Pids(done + queue)
    && Distinct(done + queue)
    && Placed(t, target, done + queue)
    && target in visited
    && visited <= t.Keys + {target}
    && forall i :: 0 <= i < |done| ==> ChildrenIn(t, done[i].pid, visited)
  }

  lemma SearchStep(t: Tree, target: int, done: seq<Node>, queue: seq<Node>, visited: set<int>, added: seq<Node>)
    requires SearchInv(t, target, done, queue, visited) && queue != []
    requires FreshChildren(t, queue[0], visited, added)
    requires ChildrenIn(t, queue[0].pid, visited + Pids(added))
    ensures SearchInv(t, target, done + [queue[0]], queue[1..] + added, visited + Pids(added))
  {
    var before, after := done + queue, (done + [queue[0]]) + (queue[1..] + added);
    assert after == before + added;
    PidsConcat(before, added);
    forall i, j | 0 <= i < j < |after|
      ensures after[i].pid != after[j].pid
    {
      if i < |before| <= j {
        assert before[i].pid in Pids(before);
      }
    }
    assert before[|done|] == queue[0];
    forall i | 0 <= i < |after|
      ensures PlacedNode(t, target, after[i])
    {
      if i >= |before| {
        assert FreshChild(t, queue[0], visited, added[i - |before|]);
        ChildDistance(t, after[i].pid, target, queue[0].depth);
      }
    }
  }

  lemma {:induction false} ReachedIsVisited(t: Tree, target: int, visited: set<int>, pid: int, n: nat)
    requires target in visited && (forall p :: p in visited ==> ChildrenIn(t, p, visited))
    requires Up(t, pid, n) == Some(target)
    ensures pid in visited
    decreases n
  {
    if n > 0 {
      ReachedIsVisited(t, target, visited, t[pid], n - 1);
      assert ChildrenIn(t, t[pid], visited);
    }
  }

  lemma SearchDone(t: Tree, target: int, done: seq<Node>, visited: set<int>)
    requires SearchInv(t, target, done, [], visited)
    ensures Descendants(t, target, done)
  {
    assert done + [] == done;
    forall p | p in visited
      ensures ChildrenIn(t, p, visited)
    {
      var i :| 0 <= i < |done| && done[i].pid == p;
    }
    forall pid | Reaches(t, pid, target)
      ensures pid in Pids(done)
    {
      var n: nat :| Up(t, pid, n) == Some(target);
      ReachedIsVisited(t, target, visited, pid, n);
    }
  }

  lemma {:induction false} DistinctCount(nodes: seq<Node>)
    requires Distinct(nodes)
    ensures |Pids(nodes)| == |nodes|
  {
    if nodes != [] {
      var n := |nodes| - 1;
      DistinctCount(nodes[..n]);
      PidsSnoc(nodes[..n], nodes[n]);
      assert nodes[..n] + [nodes[n]] == nodes;
      assert nodes[n].pid !in Pids(nodes[..n]);
    } else {
      assert Pids(nodes) == {};
    }
  }

  lemma SearchBound(t: Tree, target: int, done: seq<Node>, queue: seq<Node>, visited: set<int>)
    requires SearchInv(t, target, done, queue, visited)
    ensures |done| + |queue| <= |t.Keys + {target}|
  {
    DistinctCount(done + queue);
    SubsetCount(visited, t.Keys + {target});
  }

  lemma {:induction false} SubsetCount<T>(a: set<T>, b: set<T>)
    requires a <= b
    ensures |a| <= |b|
  {
    if a != {} {
      var x :| x in a;
      SubsetCount(a - {x}, b - {x});
    }
  }

  /** Breadth-first search from the target; it ends on every map, cyclic ones included. */
  method FindDescendants(t: Tree, target: int) returns (result: seq<Node>)
    ensures Descendants(t, target, result)
  {
    result := [];
    var queue := [Node(target, 0, 0)];
    var visited := {target};
    assert result + queue == queue && queue[0].pid == target && Pids(queue) == visited;
    while queue != []
      invariant SearchInv(t, target, result, queue, visited)
      decreases |t.Keys + {target}| - |result|
    {
      var current := queue[0];
      SearchBound(t, target, result, queue, visited);
      var added := Expand(t, current, visited);
      SearchStep(t, target, result, queue, visited, added);
      queue := queue[1..] + added;
      visited := visited + Pids(added);
      result := result + [current];
    }
    SearchDone(t, target, result, visited);
  }

  // ---------------------------------------------------------------- killing

  ghost predicate DeepestFirst(nodes: seq<Node>) {
    forall i, j :: 0 <= i < j < |nodes| ==> nodes[i].depth >= nodes[j].depth
  }

  method Insert(sorted: seq<Node>, x: Node) returns (longer: seq<Node>)
    requires DeepestFirst(sorted)
    ensures DeepestFirst(longer) && multiset(longer) == multiset(sorted) + multiset{x}
  {
    var k := 0;
    while k < |sorted| && sorted[k].depth >= x.depth
      invariant 0 <= k <= |sorted|
      invariant forall i :: 0 <= i < k ==> sorted[i].depth >= x.depth
    {
      k := k + 1;
    }
    longer := sorted[..k] + [x] + sorted[k..];
    InsertedInOrder(sorted, x, k);
    InsertedMembers(sorted, x, k);
  }

  lemma InsertedMembers(sorted: seq<Node>, x: Node, k: nat)
    requires k <= |sorted|
    ensures multiset(sorted[..k] + [x] + sorted[k..]) == multiset(sorted) + multiset{x}
  {
    assert sorted == sorted[..k] + sorted[k..];
  }

  lemma InsertedInOrder(sorted: seq<Node>, x: Node, k: nat)
    requires DeepestFirst(sorted) && k <= |sorted|
    requires forall i :: 0 <= i < k ==> sorted[i].depth >= x.depth
    requires k < |sorted| ==> sorted[k].depth <= x.depth
    ensures DeepestFirst(sorted[..k] + [x] + sorted[k..])
  {
    var longer := sorted[..k] + [x] + sorted[k..];
    forall i, j | 0 <= i < j < |longer|
      ensures longer[i].depth >= longer[j].depth
    {
      var a, b := if i > k then i - 1 else i, if j > k then j - 1 else j;
      assert i != k ==> longer[i] == sorted[a];
      assert j != k ==> longer[j] == sorted[b];
    }
  }

  /** Sorting by depth, deepest first; the order of equals is left open. */
  method SortByDepth(nodes: seq<Node>) returns (sorted: seq<Node>)
    ensures DeepestFirst(sorted)
    ensures multiset(sorted) == multiset(nodes)
  {
    sorted := [];
    for n := 0 to |nodes|
      invariant DeepestFirst(sorted)
      invariant multiset(sorted) == multiset(nodes[..n])
    {
      assert nodes[..n + 1] == nodes[..n] + [nodes[n]];
      sorted := Insert(sorted, nodes[n]);
    }
    assert nodes[..|nodes|] == nodes;
  }

  lemma {:induction false} SameNodes(a: seq<Node>, b: seq<Node>)
    requires multiset(a) == multiset(b) && Distinct(a)
    ensures Distinct(b) && Pids(b) == Pids(a)
    ensures forall x :: x in b <==> x in a
  {
    assert forall x :: x in b <==> x in multiset(b);
    assert forall x :: x in a <==> x in multiset(a);
    forall i, j | 0 <= i < j < |b|
      ensures b[i].pid != b[j].pid
    {
      if b[i].pid == b[j].pid {
        assert b[i] in a && b[j] in a;
        var k :| 0 <= k < |a| && a[k] == b[i];
        var l :| 0 <= l < |a| && a[l] == b[j];
        assert k == l;
        Twice(b, i, j);
        Once(a, k);
        assert false;
      }
    }
    forall p
      ensures p in Pids(a) <==> p in Pids(b)
    {
      if p in Pids(a) {
        var i :| 0 <= i < |a| && a[i].pid == p;
        assert a[i] in b;
      }
      if p in Pids(b) {
        var i :| 0 <= i < |b| && b[i].pid == p;
        assert b[i] in a;
      }
    }
  }

  lemma Twice(b: seq<Node>, i: nat, j: nat)
    requires i < j < |b| && b[i] == b[j]
    ensures multiset(b)[b[i]] >= 2
  {
    assert b == b[..j] + b[j..];
    assert b[..j][i] == b[i] && b[j..][0] == b[j];
    assert b[i] in multiset(b[..j]) && b[j] in multiset(b[j..]);
  }

  lemma Once(a: seq<Node>, k: nat)
    requires Distinct(a) && k < |a|
    ensures multiset(a)[a[k]] == 1
  {
    assert a == a[..k] + [a[k]] + a[k + 1..];
    assert forall i :: 0 <= i < k ==> a[..k][i].pid != a[k].pid;
    var rest := a[k + 1..];
    assert forall i :: 0 <= i < |rest| ==> rest[i] == a[k + 1 + i];
    assert a[k] !in multiset(a[..k]) && a[k] !in multiset(a[k + 1..]);
  }

  datatype Outcome = Refused | Ran(attempts: seq<int>, killed: nat, errors: nat, success: bool)

  /** `kills` tells which signals succeed; protected identifiers are refused. */
  predicate KillSingle(kills: int -> bool, pid: int) {
    pid > 1 && kills(pid)
  }

  function Successes(kills: int -> bool, pids: seq<int>): nat {
    if pids == [] then 0
    else Successes(kills, pids[..|pids| - 1]) + if KillSingle(kills, pids[|pids| - 1]) then 1 else 0
  }

  /** The processes that die: those signalled with success, and never one of the protected two. */
  ghost function Killed(kills: int -> bool, pids: seq<int>): set<int> {
    set pid | pid in pids && pid > 1 && kills(pid)
  }

  lemma {:induction false} SuccessesAreKilled(kills: int -> bool, pids: seq<int>)
    requires forall i, j :: 0 <= i < j < |pids| ==> pids[i] != pids[j]
    ensures Successes(kills, pids) == |Killed(kills, pids)|
  {
    if pids == [] {
      assert Killed(kills, pids) == {};
    } else {
      var n := |pids| - 1;
      var front, pid := pids[..n], pids[n];
      SuccessesAreKilled(kills, front);
      assert pid !in front && pids == front + [pid];
      assert Killed(kills, pids) == Killed(kills, front) + if pid > 1 && kills(pid) then {pid} else {};
    }
  }

  function PidSeq(nodes: seq<Node>): (s: seq<int>)
    ensures |s| == |nodes| && forall i :: 0 <= i < |s| ==> s[i] == nodes[i].pid
  {
    seq(|nodes|, i requires 0 <= i < |nodes| => nodes[i].pid)
  }

  /** Every process whose parent chain reaches the root exactly once, each before its parent, the
      root last. */
  ghost predicate ChildrenFirst(t: Tree, root: int, attempts: seq<int>) {
    && (forall i, j :: 0 <= i < j < |attempts| ==> attempts[i] != attempts[j])
    && (forall pid :: pid in attempts <==> Reaches(t, pid, root))
    && attempts != [] && attempts[|attempts| - 1] == root
    && (forall i :: 0 <= i < |attempts| - 1 ==>
          attempts[i] in t && exists j :: i < j < |attempts| && attempts[j] == t[attempts[i]])
  }

  lemma RootIsLast(t: Tree, root: int, nodes: seq<Node>)
    requires Descendants(t, root, nodes) && DeepestFirst(nodes)
    ensures nodes != [] && nodes[|nodes| - 1].pid == root
  {
    assert Up(t, root, 0) == Some(root);
    assert root in Pids(nodes);
    var r :| 0 <= r < |nodes| && nodes[r].pid == root;
    assert Distance(t, root, root, 0);
    var last := nodes[|nodes| - 1];
    assert last.depth == 0;
    assert Distance(t, last.pid, root, 0);
  }

  lemma ParentLater(t: Tree, root: int, nodes: seq<Node>, i: nat) returns (j: nat)
    requires Descendants(t, root, nodes) && DeepestFirst(nodes) && i < |nodes| && nodes[i].pid != root
    ensures nodes[i].pid in t && i < j < |nodes| && nodes[j].pid == t[nodes[i].pid]
  {
    var x := nodes[i];
    ParentDistance(t, x.pid, root, x.depth);
    assert Reaches(t, t[x.pid], root);
    j :| 0 <= j < |nodes| && nodes[j].pid == t[x.pid];
  }

  lemma KillOrder(t: Tree, root: int, nodes: seq<Node>)
    requires Descendants(t, root, nodes) && DeepestFirst(nodes)
    ensures ChildrenFirst(t, root, PidSeq(nodes))
  {
    var s := PidSeq(nodes);
    RootIsLast(t, root, nodes);
    forall pid
      ensures pid in s <==> Reaches(t, pid, root)
    {
      if pid in s {
        var i :| 0 <= i < |s| && s[i] == pid;
        assert PlacedNode(t, root, nodes[i]);
      }
      if Reaches(t, pid, root) {
        var i :| 0 <= i < |nodes| && nodes[i].pid == pid;
        assert s[i] == pid;
      }
    }
    forall i | 0 <= i < |s| - 1
      ensures s[i] in t && exists j :: i < j < |s| && s[j] == t[s[i]]
    {
      assert nodes[i].pid != root;
      var j := ParentLater(t, root, nodes, i);
      assert s[j] == t[s[i]];
    }
  }

  /** `tree` is None when the process table cannot be read. */
  method KillProcessTree(pid: int, tree: Option<Tree>, kills: int -> bool) returns (outcome: Outcome)
    ensures outcome.Refused? <==> pid <= 1 || tree.None?
    ensures outcome.Ran? ==>
              && ChildrenFirst(tree.value, pid, outcome.attempts)
              && outcome.killed == |Killed(kills, outcome.attempts)|
              && outcome.killed + outcome.errors == |outcome.attempts|
              && (outcome.success <==> Killed(kills, outcome.attempts) != {})
  {
    if pid <= 1 || tree.None? {
      return Refused;
    }
    var found := FindDescendants(tree.value, pid);
    var sorted := SortByDepth(found);
    SortedDescendants(tree.value, pid, found, sorted);
    RootIsLast(tree.value, pid, sorted);
    KillOrder(tree.value, pid, sorted);
    outcome := KillInOrder(sorted, pid, kills);
    SuccessesAreKilled(kills, outcome.attempts);
  }

  /** Everything but the root in the order given, the root at the end. */
  method KillInOrder(sorted: seq<Node>, root: int, kills: int -> bool) returns (outcome: Outcome)
    requires Distinct(sorted) && sorted != [] && sorted[|sorted| - 1].pid == root
    ensures outcome.Ran? && outcome.attempts == PidSeq(sorted)
    ensures outcome.killed == Successes(kills, outcome.attempts)
    ensures outcome.killed + outcome.errors == |outcome.attempts|
    ensures outcome.success <==> outcome.killed > 0
  {
    ghost var order := PidSeq(sorted);
    ghost var last := |sorted| - 1;
    var attempts, killed, errors := [], 0, 0;
    for i := 0 to |sorted|
      invariant attempts == order[..if i < last then i else last]
      invariant killed == Successes(kills, attempts)
      invariant killed + errors == |attempts|
    {
      if sorted[i].pid == root {
        assert i == last;
        continue;
      }
      attempts, killed, errors := Attempt(kills, sorted[i].pid, attempts, killed, errors);
    }
    attempts, killed, errors := Attempt(kills, root, attempts, killed, errors);
    assert attempts == order;
    outcome := Ran(attempts, killed, errors, killed > 0);
  }

  method Attempt(kills: int -> bool, pid: int, attempts: seq<int>, killed: nat, errors: nat)
    returns (attempts': seq<int>, killed': nat, errors': nat)
    requires killed == Successes(kills, attempts)
    ensures attempts' == attempts + [pid] && killed' == Successes(kills, attempts')
    ensures killed' + errors' == killed + errors + 1
  {
    attempts' := attempts + [pid];
    assert attempts'[..|attempts|] == attempts;
    if KillSingle(kills, pid) {
      killed', errors' := killed + 1, errors;
    } else {
      killed', errors' := killed, errors + 1;
    }
  }

  lemma SortedDescendants(t: Tree, root: int, found: seq<Node>, sorted: seq<Node>)
    requires Descendants(t, root, found) && multiset(sorted) == multiset(found)
    ensures Descendants(t, root, sorted)
  {
    SameNodes(found, sorted);
    forall i | 0 <= i < |sorted|
      ensures PlacedNode(t, root, sorted[i])
    {
      assert sorted[i] in found;
    }
  }
}
