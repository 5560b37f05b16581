/** The sliding-window connection tracker (internal/collector/conntrack.go).  Times and durations
    are integer nanoseconds. */
module ConnTrack {
  import opened Wire

  type Buckets = map<string, seq<int>>

  // ---------------------------------------------------------------- pruning

  /** The timestamps from the first one not before the cutoff. */
  function Prune(ts: seq<int>, cutoff: int): seq<int> {
    if ts == [] || ts[0] >= cutoff then ts else Prune(ts[1..], cutoff)
  }

  /** All timestamps not before the cutoff. */
  function Within(ts: seq<int>, cutoff: int): seq<int> {
    if ts == [] then [] else Within(ts[..|ts| - 1], cutoff) + if ts[|ts| - 1] >= cutoff then [ts[|ts| - 1]] else []
  }

  predicate Sorted(ts: seq<int>) {
    forall i, j :: 0 <= i < j < |ts| ==> ts[i] <= ts[j]
  }

  lemma {:induction false} PruneAll(ts: seq<int>, cutoff: int)
    requires forall i :: 0 <= i < |ts| ==> ts[i] < cutoff
    ensures Prune(ts, cutoff) == [] && Within(ts, cutoff) == []
  {
    if ts != [] {
      PruneAll(ts[1..], cutoff);
      WithinNone(ts, cutoff);
    }
  }

  lemma {:induction false} WithinNone(ts: seq<int>, cutoff: int)
    requires forall i :: 0 <= i < |ts| ==> ts[i] < cutoff
    ensures Within(ts, cutoff) == []
  {
    if ts != [] {
      WithinNone(ts[..|ts| - 1], cutoff);
    }
  }

  lemma {:induction false} PruneSnoc(ts: seq<int>, x: int, cutoff: int)
    requires Sorted(ts + [x])
    ensures Prune(ts + [x], cutoff) == if x >= cutoff then Prune(ts, cutoff) + [x] else []
  {
    if ts == [] {
      assert (ts + [x])[1..] == [];
    } else {
      assert (ts + [x])[1..] == ts[1..] + [x];
      var tail := ts[1..] + [x];
      assert forall i :: 0 <= i < |tail| ==> tail[i] == (ts + [x])[i + 1];
      PruneSnoc(ts[1..], x, cutoff);
    }
  }

  /** On sorted timestamps, dropping a prefix is filtering. */
  lemma {:induction false} PruneIsWithin(ts: seq<int>, cutoff: int)
    requires Sorted(ts)
    ensures Prune(ts, cutoff) == Within(ts, cutoff)
  {
    if ts != [] {
      var n := |ts| - 1;
      assert ts[..n] + [ts[n]] == ts;
      PruneSnoc(ts[..n], ts[n], cutoff);
      if ts[n] >= cutoff {
        PruneIsWithin(ts[..n], cutoff);
      } else {
        WithinNone(ts, cutoff);
      }
    }
  }

  /** Filtering twice is filtering once with the later cutoff. */
  lemma {:induction false} WithinTwice(ts: seq<int>, early: int, late: int)
    requires early <= late
    ensures Within(Within(ts, early), late) == Within(ts, late)
  {
    if ts != [] {
      var n := |ts| - 1;
      WithinTwice(ts[..n], early, late);
      var w := Within(ts[..n], early);
      if ts[n] >= early {
        assert (w + [ts[n]])[..|w|] == w;
      } else {
        assert Within(ts, early) == w;
      }
    }
  }

  lemma {:induction false} WithinSorted(ts: seq<int>, cutoff: int)
    requires Sorted(ts)
    ensures Sorted(Within(ts, cutoff))
    ensures forall i :: 0 <= i < |Within(ts, cutoff)| ==> Within(ts, cutoff)[i] in ts
  {
    if ts != [] {
      WithinSorted(ts[..|ts| - 1], cutoff);
    }
  }

  // ---------------------------------------------------------------- the tracker

  datatype Stats = Panic | Stats(count: nat, first: int, last: int, avg: int)

  function Total(ts: seq<int>): int {
    if |ts| <= 1 then 0 else Total(ts[..|ts| - 1]) + (ts[|ts| - 1] - ts[|ts| - 2])
  }

  /** Division of durations truncates toward zero. */
  function Quotient(a: int, b: int): int
    requires b > 0
  {
    if a >= 0 then a / b else -((-a) / b)
  }

  /** Indexing an emptied bucket panics. */
  function BuildStats(ts: seq<int>): Stats {
    if ts == [] then Panic
    else Stats(|ts|, ts[0], ts[|ts| - 1], if |ts| >= 2 then Quotient(Total(ts), |ts| - 1) else 0)
  }

  /** What a query finds; an address never seen has no statistics. */
  function StatsOf(window: int, b: Buckets, addr: string, now: int): Stats {
    if addr !in b then Stats(0, 0, 0, 0) else BuildStats(Prune(b[addr], now - window))
  }

  function Queried(window: int, b: Buckets, addr: string, now: int): Buckets {
    if addr !in b then b else b[addr := Prune(b[addr], now - window)]
  }

  function Recorded(window: int, b: Buckets, addr: string, now: int): Buckets {
    b[addr := Prune((if addr in b then b[addr] else []) + [now], now - window)]
  }

  function Cleaned(window: int, b: Buckets, now: int): Buckets {
    map a | a in b && Prune(b[a], now - window) != [] :: Prune(b[a], now - window)
  }

  class Tracker {
    const window: int
    var buckets: Buckets

    constructor (window: int)
      ensures this.window == window && buckets == map[]
    {
      this.window, buckets := window, map[];
    }

    method PruneBucket(ts: seq<int>, now: int) returns (kept: seq<int>)
      ensures kept == Prune(ts, now - window)
    {
      var cutoff := now - window;
      var i := 0;
      while i < |ts| && ts[i] < cutoff
        invariant 0 <= i <= |ts|
        invariant Prune(ts[i..], cutoff) == Prune(ts, cutoff)
      {
        assert ts[i..][1..] == ts[i + 1..];
        i := i + 1;
      }
      kept := ts[i..];
    }

    method Record(addr: string, now: int)
      modifies this
      ensures buckets == Recorded(window, old(buckets), addr, now)
    {
      var ts := (if addr in buckets then buckets[addr] else []) + [now];
      ts := PruneBucket(ts, now);
      buckets := buckets[addr := ts];
    }

    method ComputeStats(ts: seq<int>) returns (s: Stats)
      ensures s == BuildStats(ts)
    {
      if ts == [] {
        return Panic;
      }
      var avg := 0;
      if |ts| >= 2 {
        var total := 0;
        for i := 1 to |ts|
          invariant total == Total(ts[..i])
        {
          assert ts[..i + 1][..i] == ts[..i];
          total := total + (ts[i] - ts[i - 1]);
        }
        assert ts[..|ts|] == ts;
        avg := Quotient(total, |ts| - 1);
      }
      s := Stats(|ts|, ts[0], ts[|ts| - 1], avg);
    }

    method GetStats(addr: string, now: int) returns (s: Stats)
      modifies this
      ensures s == StatsOf(window, old(buckets), addr, now)
      ensures buckets == Queried(window, old(buckets), addr, now)
    {
      if addr !in buckets {
        return Stats(0, 0, 0, 0);
      }
      var ts := PruneBucket(buckets[addr], now);
      buckets := buckets[addr := ts];
      s := ComputeStats(ts);
    }

    /** None when the query panics. */
    method CheckBeacon(addr: string, minCount: int, minInterval: int, maxInterval: int, now: int)
      returns (beacon: Option<bool>)
      modifies this
      ensures beacon == Beacon(StatsOf(window, old(buckets), addr, now), minCount, minInterval, maxInterval)
      ensures buckets == Queried(window, old(buckets), addr, now)
    {
      var stats := GetStats(addr, now);
      if stats.Panic? {
        return None;
      }
      if stats.count < minCount {
        return Some(false);
      }
      if minInterval <= 0 || maxInterval <= 0 {
        return Some(false);
      }
      if stats.avg < minInterval || stats.avg > maxInterval {
        return Some(false);
      }
      return Some(true);
    }

    method Cleanup(now: int)
      modifies this
      ensures buckets == Cleaned(window, old(buckets), now)
    {
      var todo := buckets.Keys;
      ghost var before := buckets;
      while todo != {}
        invariant todo <= before.Keys
        invariant forall a :: a in buckets <==> a in before && (a in todo || Prune(before[a], now - window) != [])
        invariant forall a :: a in buckets ==>
          buckets[a] == if a in todo then before[a] else Prune(before[a], now - window)
        decreases |todo|
      {
        var a :| a in todo;
        var ts := PruneBucket(buckets[a], now);
        if ts == [] {
          buckets := buckets - {a};
        } else {
          buckets := buckets[a := ts];
        }
        todo := todo - {a};
      }
    }
  }

  // ---------------------------------------------------------------- a bucket is the windowed history

  datatype Op = Record(addr: string, now: int) | Query(addr: string, now: int) | Clean(now: int)

  function Step(window: int, b: Buckets, op: Op): Buckets {
    match op
    case Record(addr, now) => Recorded(window, b, addr, now)
    case Query(addr, now) => Queried(window, b, addr, now)
    case Clean(now) => Cleaned(window, b, now)
  }

  function After(window: int, ops: seq<Op>): Buckets {
    if ops == [] then map[] else Step(window, After(window, ops[..|ops| - 1]), ops[|ops| - 1])
  }

  /** Everything ever recorded for an address. */
  function History(ops: seq<Op>, addr: string): seq<int> {
    if ops == [] then [] else
    var op := ops[|ops| - 1];
    History(ops[..|ops| - 1], addr) + if op.Record? && op.addr == addr then [op.now] else []
  }

  predicate Clocked(ops: seq<Op>) {
    forall i, j :: 0 <= i < j < |ops| ==> ops[i].now <= ops[j].now
  }

  function Bucket(b: Buckets, addr: string): seq<int> {
    if addr in b then b[addr] else []
  }

  /** `ts` is the history up to `now`, filtered by a cutoff no later than the window's. */
  ghost predicate Windowed(window: int, ts: seq<int>, history: seq<int>, now: int) {
    && Sorted(history) && (forall i :: 0 <= i < |history| ==> history[i] <= now)
    && exists cutoff :: cutoff <= now - window && ts == Within(history, cutoff)
  }

  /** Pruning such a bucket later gives the whole history filtered to the window. */
  lemma WindowedPrune(window: int, ts: seq<int>, history: seq<int>, t: int, now: int)
    requires Windowed(window, ts, history, t) && t <= now
    ensures Prune(ts, now - window) == Within(history, now - window)
    ensures Windowed(window, Prune(ts, now - window), history, now)
  {
    var cutoff :| cutoff <= t - window && ts == Within(history, cutoff);
    WithinSorted(history, cutoff);
    PruneIsWithin(ts, now - window);
    WithinTwice(history, cutoff, now - window);
  }

  lemma WindowedRecord(window: int, ts: seq<int>, history: seq<int>, t: int, now: int)
    requires Windowed(window, ts, history, t) && t <= now && window >= 0
    ensures Windowed(window, ts + [now], history + [now], now)
  {
    var cutoff :| cutoff <= t - window && ts == Within(history, cutoff);
    assert (history + [now])[..|history|] == history;
    assert Within(history + [now], cutoff) == ts + [now];
  }

  lemma NoneInWindow(window: int, history: seq<int>, now: int)
    requires window < 0 && Sorted(history) && forall i :: 0 <= i < |history| ==> history[i] <= now
    ensures Windowed(window, [], history, now)
  {
    WithinNone(history, now - window);
    assert [] == Within(history, now - window);
  }

  lemma SnocSorted(ts: seq<int>, history: seq<int>, now: int)
    requires Sorted(ts) && (forall i :: 0 <= i < |ts| ==> ts[i] in history)
    requires forall i :: 0 <= i < |history| ==> history[i] <= now
    ensures Sorted(ts + [now])
  {
    forall i | 0 <= i < |ts|
      ensures ts[i] <= now
    {
      assert ts[i] in history;
    }
  }

  /** With a negative window even the connection just recorded is out of it. */
  lemma RecordExpired(window: int, ts: seq<int>, history: seq<int>, now: int)
    requires window < 0 && Windowed(window, ts, history, now)
    ensures Prune(ts + [now], now - window) == []
    ensures Windowed(window, [], history + [now], now)
  {
    var cutoff :| cutoff <= now - window && ts == Within(history, cutoff);
    WithinSorted(history, cutoff);
    SnocSorted(ts, history, now);
    PruneSnoc(ts, now, now - window);
    NoneInWindow(window, history + [now], now);
  }

  lemma {:induction false} BucketsWindowed(window: int, ops: seq<Op>, addr: string)
    requires Clocked(ops) && ops != []
    ensures Windowed(window, Bucket(After(window, ops), addr), History(ops, addr), ops[|ops| - 1].now)
  {
    var n := |ops| - 1;
    var now, front := ops[n].now, ops[..n];
    var b, h := After(window, front), History(front, addr);
    if n == 0 {
      assert Within([], now - window) == [];
      assert Windowed(window, [], [], now);
    } else {
      BucketsWindowed(window, front, addr);
    }
    StepWindowed(window, Bucket(b, addr), Bucket(After(window, ops), addr), h, now,
                 ops[n].Record? && ops[n].addr == addr);
    assert History(ops, addr) == h + if ops[n].Record? && ops[n].addr == addr then [now] else [];
  }

  lemma StepWindowed(window: int, ts: seq<int>, ts': seq<int>, h: seq<int>, now: int, mine: bool)
    requires Windowed(window, ts, h, now)
    requires if mine then ts' == Prune(ts + [now], now - window) else ts' == ts || ts' == Prune(ts, now - window)
    ensures Windowed(window, ts', h + if mine then [now] else [], now)
  {
    if mine {
      RecordWindowed(window, ts, h, now);
    } else {
      assert h + [] == h;
      WindowedPrune(window, ts, h, now, now);
    }
  }

  lemma RecordWindowed(window: int, ts: seq<int>, history: seq<int>, now: int)
    requires Windowed(window, ts, history, now)
    ensures Windowed(window, Prune(ts + [now], now - window), history + [now], now)
  {
    if window < 0 {
      RecordExpired(window, ts, history, now);
    } else {
      WindowedRecord(window, ts, history, now, now);
      WindowedPrune(window, ts + [now], history + [now], now, now);
    }
  }

  /** In every run with a clock that never goes back, whatever was recorded, queried and cleaned up
      in between: a query sees exactly the recorded history filtered to the window. */
  lemma QuerySeesWindow(window: int, ops: seq<Op>, addr: string, now: int)
    requires Clocked(ops) && (ops != [] ==> ops[|ops| - 1].now <= now)
    ensures Prune(Bucket(After(window, ops), addr), now - window) == Within(History(ops, addr), now - window)
  {
    if ops != [] {
      BucketsWindowed(window, ops, addr);
      WindowedPrune(window, Bucket(After(window, ops), addr), History(ops, addr), ops[|ops| - 1].now, now);
    }
  }

  // ---------------------------------------------------------------- statistics

  lemma {:induction false} TotalTelescopes(ts: seq<int>)
    requires ts != []
    ensures Total(ts) == ts[|ts| - 1] - ts[0]
  {
    if |ts| > 1 {
      TotalTelescopes(ts[..|ts| - 1]);
    }
  }

  function Beacon(s: Stats, minCount: int, minInterval: int, maxInterval: int): Option<bool> {
    if s.Panic? then None
    else Some(s.count >= minCount && minInterval > 0 && maxInterval > 0 && minInterval <= s.avg <= maxInterval)
  }

  lemma Scales(a: int, b: int, n: int)
    requires n > 0
    ensures a <= b <==> a * n <= b * n
  {
    if a <= b {
      assert (b - a) * n >= 0;
    } else {
      assert (a - b - 1) * n >= 0;
    }
  }

  lemma QuotientBounds(total: int, n: int, lo: int, hi: int)
    requires total >= 0 && n > 0
    ensures lo <= total / n <==> lo * n <= total
    ensures total / n <= hi <==> total < (hi + 1) * n
  {
    var q := total / n;
    assert q * n <= total < (q + 1) * n;
    Scales(lo, q, n);
    Scales(q + 1, lo, n);
    Scales(q + 1, hi + 1, n);
    Scales(hi + 1, q, n);
  }

  predicate Regular(ts: seq<int>, minCount: int, minInterval: int, maxInterval: int) {
    && minInterval > 0 && maxInterval > 0 && |ts| >= minCount && |ts| >= 2
    && minInterval * (|ts| - 1) <= ts[|ts| - 1] - ts[0] < (maxInterval + 1) * (|ts| - 1)
  }

  lemma BucketBeacon(ts: seq<int>, minCount: int, minInterval: int, maxInterval: int)
    requires ts != [] && Sorted(ts)
    ensures Beacon(BuildStats(ts), minCount, minInterval, maxInterval)
         == Some(Regular(ts, minCount, minInterval, maxInterval))
  {
    TotalTelescopes(ts);
    if |ts| >= 2 {
      QuotientBounds(Total(ts), |ts| - 1, minInterval, maxInterval);
    }
  }

  // ---------------------------------------------------------------- which addresses have a bucket

  /** Operation `j` is a clean-up that finds everything recorded for the address out of the window. */
  predicate Empties(window: int, ops: seq<Op>, addr: string, j: nat)
    requires j < |ops|
  {
    ops[j].Clean? && Within(History(ops[..j], addr), ops[j].now - window) == []
  }

  /** Operation `i` recorded the address, and no clean-up has emptied its bucket since. */
  predicate KeptSince(window: int, ops: seq<Op>, addr: string, i: nat)
    requires i < |ops|
  {
    ops[i].Record? && ops[i].addr == addr && forall j :: i < j < |ops| ==> !Empties(window, ops, addr, j)
  }

  predicate Tracked(window: int, ops: seq<Op>, addr: string) {
    exists i :: 0 <= i < |ops| && KeptSince(window, ops, addr, i)
  }

  lemma KeptSinceSnoc(window: int, ops: seq<Op>, addr: string, i: nat)
    requires i < |ops| - 1
    ensures KeptSince(window, ops, addr, i) <==>
            KeptSince(window, ops[..|ops| - 1], addr, i) && !Empties(window, ops, addr, |ops| - 1)
  {
    var front := ops[..|ops| - 1];
    forall j | 0 <= j < |front|
      ensures Empties(window, ops, addr, j) <==> Empties(window, front, addr, j)
    {
      assert front[..j] == ops[..j];
    }
  }

  lemma TrackedSnoc(window: int, ops: seq<Op>, addr: string)
    requires ops != []
    ensures var n := |ops| - 1;
            Tracked(window, ops, addr) <==>
            || (ops[n].Record? && ops[n].addr == addr)
            || (Tracked(window, ops[..n], addr) && !Empties(window, ops, addr, n))
  {
    var n := |ops| - 1;
    forall i | 0 <= i < n
      ensures KeptSince(window, ops, addr, i) <==>
              KeptSince(window, ops[..n], addr, i) && !Empties(window, ops, addr, n)
    {
      KeptSinceSnoc(window, ops, addr, i);
    }
    assert KeptSince(window, ops, addr, n) <==> ops[n].Record? && ops[n].addr == addr;
    assert Tracked(window, ops[..n], addr) <==> exists i :: 0 <= i < n && KeptSince(window, ops[..n], addr, i);
  }

  /** The addresses with a bucket can be read off the run. */
  lemma {:induction false} BucketIffTracked(window: int, ops: seq<Op>, addr: string)
    requires Clocked(ops)
    ensures addr in After(window, ops) <==> Tracked(window, ops, addr)
  {
    if ops != [] {
      var n := |ops| - 1;
      var front := ops[..n];
      BucketIffTracked(window, front, addr);
      TrackedSnoc(window, ops, addr);
      QuerySeesWindow(window, front, addr, ops[n].now);
    }
  }

  // ---------------------------------------------------------------- queries over runs

  /** In every run, a beacon is at least two connections in the window, enough of them, whose span
      fits the interval bounds multiplied by the number of gaps; an address without a bucket is
      none, and one whose bucket has only old connections panics. */
  lemma BeaconIff(window: int, ops: seq<Op>, addr: string, now: int, minCount: int, minInterval: int, maxInterval: int)
    requires Clocked(ops) && (ops != [] ==> ops[|ops| - 1].now <= now)
    ensures var w := Within(History(ops, addr), now - window);
            Beacon(StatsOf(window, After(window, ops), addr, now), minCount, minInterval, maxInterval) ==
            if w == [] && Tracked(window, ops, addr) then None
            else Some(Regular(w, minCount, minInterval, maxInterval))
  {
    var w := Within(History(ops, addr), now - window);
    BucketIffTracked(window, ops, addr);
    QuerySeesWindow(window, ops, addr, now);
    if w != [] {
      HistorySorted(window, ops, addr);
      WithinSorted(History(ops, addr), now - window);
      BucketBeacon(w, minCount, minInterval, maxInterval);
    }
  }

  lemma HistorySorted(window: int, ops: seq<Op>, addr: string)
    requires Clocked(ops)
    ensures Sorted(History(ops, addr))
  {
    if ops != [] {
      BucketsWindowed(window, ops, addr);
    }
  }

  /** Count, first, last, and the time between those two shared out over the gaps. */
  ghost predicate Describes(s: Stats, w: seq<int>)
    requires w != []
  {
    && s.Stats? && s.count == |w| && s.first == w[0] && s.last == w[|w| - 1]
    && (|w| == 1 ==> s.avg == 0)
    && (|w| > 1 ==> s.avg * (|w| - 1) <= w[|w| - 1] - w[0] < (s.avg + 1) * (|w| - 1))
  }

  lemma StatsDescribe(w: seq<int>)
    requires w != [] && Sorted(w)
    ensures Describes(BuildStats(w), w)
  {
    TotalTelescopes(w);
    if |w| > 1 {
      var avg := BuildStats(w).avg;
      QuotientBounds(Total(w), |w| - 1, avg, avg);
    }
  }

  /** In every run, what a query reports is read off the connections in the window. */
  lemma StatsInRun(window: int, ops: seq<Op>, addr: string, now: int)
    requires Clocked(ops) && (ops != [] ==> ops[|ops| - 1].now <= now)
    ensures var w := Within(History(ops, addr), now - window);
            var s := StatsOf(window, After(window, ops), addr, now);
            if w != [] then Describes(s, w) else s == if Tracked(window, ops, addr) then Panic else Stats(0, 0, 0, 0)
  {
    var w := Within(History(ops, addr), now - window);
    BucketIffTracked(window, ops, addr);
    QuerySeesWindow(window, ops, addr, now);
    if w != [] {
      HistorySorted(window, ops, addr);
      WithinSorted(History(ops, addr), now - window);
      StatsDescribe(w);
    }
  }

  /** A query panics exactly when the address was recorded, everything recorded for it has left the
      window, and no clean-up has found it so. */
  lemma StatsPanics(window: int, ops: seq<Op>, addr: string, now: int)
    requires Clocked(ops) && (ops != [] ==> ops[|ops| - 1].now <= now)
    ensures StatsOf(window, After(window, ops), addr, now).Panic? <==>
            Tracked(window, ops, addr) && Within(History(ops, addr), now - window) == []
  {
    QuerySeesWindow(window, ops, addr, now);
    BucketIffTracked(window, ops, addr);
  }

  /** One connection, and a look just after it has left the window. */
  lemma StatsPanicExample(window: int)
    requires window >= 0
    ensures StatsOf(window, After(window, [Record("10.0.0.1", 0)]), "10.0.0.1", window + 1) == Panic
  {
    var ops := [Record("10.0.0.1", 0)];
    assert ops[..0] == [];
    assert After(window, ops) == Recorded(window, map[], "10.0.0.1", 0);
    assert [] + [0] == [0];
    assert Prune([0], 1) == Prune([0][1..], 1) == [];
  }
}
