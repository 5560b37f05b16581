/** Event suppression: a cooldown per key and a token bucket per rule
    (internal/control/suppress.go).  Times and durations are integer nanoseconds, token counts
    are reals. */
module Suppressor {
  import opened Wire

  // ---------------------------------------------------------------- settings

  const SECOND: int := 1_000_000_000
  const NANOS: real := 1_000_000_000.0
  const DEFAULT_PROCESS: int := 30 * SECOND
  const DEFAULT_FILE: int := 60 * SECOND
  const DEFAULT_NETWORK: int := 30 * SECOND
  const SWEEP_EVERY: nat := 1000

  datatype Options = Options(process: int, file: int, network: int, ratePerSec: nat, burst: nat)

  datatype Settings = Settings(process: int, file: int, network: int, rate: real, burst: real)

  function OrDefault(d: int, default: int): int {
    if d <= 0 then default else d
  }

  function Configure(o: Options): Settings {
    Settings(OrDefault(o.process, DEFAULT_PROCESS), OrDefault(o.file, DEFAULT_FILE),
             OrDefault(o.network, DEFAULT_NETWORK),
             o.ratePerSec as real,
             if o.burst == 0 && o.ratePerSec > 0 then o.ratePerSec as real else o.burst as real)
  }

  function Cooldown(s: Settings, category: string): int {
    if category == "process" then s.process
    else if category == "file" then s.file
    else if category == "network" then s.network
    else 0
  }

  function Longest(s: Settings): int {
    var m := if s.process > s.file then s.process else s.file;
    if s.network > m then s.network else m
  }

  /** Two's-complement wrap of a duration. */
  function Int64(x: int): int {
    var r := x % 0x1_0000_0000_0000_0000;
    if r >= 0x8000_0000_0000_0000 then r - 0x1_0000_0000_0000_0000 else r
  }

  /** The age beyond which a sweep forgets a key. */
  function Threshold(s: Settings): int {
    var t := Int64(2 * Longest(s));
    if t == 0 then 120 * SECOND else t
  }

  /** Positive cooldowns whose double does not overflow: what Configure gives for every
      cooldown below 2^62 nanoseconds (about 146 years). */
  predicate Sane(s: Settings) {
    && s.process > 0 && s.file > 0 && s.network > 0 && Longest(s) < 0x4000_0000_0000_0000
    && s.rate >= 0.0 && s.burst >= 0.0
  }

  /** What the options mean: cooldowns of 30, 60 and 30 seconds unless a positive one is given, and a
      burst of one second's worth unless one is given. */
  lemma ConfigureIsSane(o: Options)
    ensures var s := Configure(o);
            && s.process == (if o.process > 0 then o.process else 30_000_000_000)
            && s.file == (if o.file > 0 then o.file else 60_000_000_000)
            && s.network == (if o.network > 0 then o.network else 30_000_000_000)
            && s.rate == o.ratePerSec as real && s.burst == (if o.burst > 0 then o.burst else o.ratePerSec) as real
    ensures o.process < 0x4000_0000_0000_0000 && o.file < 0x4000_0000_0000_0000 && o.network < 0x4000_0000_0000_0000 ==>
              Sane(Configure(o)) && (Configure(o).rate > 0.0 ==> Configure(o).burst >= 1.0)
  {
  }

  // ---------------------------------------------------------------- one call

  datatype Bucket = Bucket(tokens: real, last: int)

  datatype State = State(lastSeen: map<string, int>, buckets: map<string, Bucket>, counter: nat)

  const FRESH := State(map[], map[], 0)

  datatype Call = Call(category: string, rule: string, key: string, now: int)

  datatype Verdict = Allowed | CooldownHit | RateLimited

  /** Tokens gained over a duration: seconds times the rate. */
  function Gain(s: Settings, d: int): real {
    (d as real / NANOS) * s.rate
  }

  function Clamp(s: Settings, x: real): real {
    if x > s.burst then s.burst else x
  }

  /** Tokens the rule would find at `now`. */
  function Avail(s: Settings, buckets: map<string, Bucket>, rule: string, now: int): real {
    if rule in buckets then Clamp(s, buckets[rule].tokens + Gain(s, now - buckets[rule].last)) else s.burst
  }

  predicate CoolingDown(s: Settings, st: State, c: Call) {
    Cooldown(s, c.category) > 0 && c.key in st.lastSeen && c.now - st.lastSeen[c.key] < Cooldown(s, c.category)
  }

  predicate Limited(s: Settings, c: Call) {
    s.rate > 0.0 && c.rule != ""
  }

  function VerdictOf(s: Settings, st: State, c: Call): Verdict {
    if CoolingDown(s, st, c) then CooldownHit
    else if Limited(s, c) && Avail(s, st.buckets, c.rule, c.now) < 1.0 then RateLimited
    else Allowed
  }

  function Sweep(s: Settings, seen: map<string, int>, now: int): map<string, int> {
    map k | k in seen && now - seen[k] <= Threshold(s) :: seen[k]
  }

  function BucketsAfter(s: Settings, st: State, c: Call): map<string, Bucket> {
    if CoolingDown(s, st, c) || !Limited(s, c) then st.buckets else
    var tokens := Avail(s, st.buckets, c.rule, c.now);
    st.buckets[c.rule := Bucket(if tokens < 1.0 then tokens else tokens - 1.0, c.now)]
  }

  /** One call; with `sweep` off, stale keys are never forgotten. */
  function Next(s: Settings, sweep: bool, st: State, c: Call): State {
    var buckets := BucketsAfter(s, st, c);
    if VerdictOf(s, st, c) != Allowed then st.(buckets := buckets) else
    var seen := st.lastSeen[c.key := c.now];
    if st.counter + 1 >= SWEEP_EVERY then State(if sweep then Sweep(s, seen, c.now) else seen, buckets, 0)
    else State(seen, buckets, st.counter + 1)
  }

  class Gate {
    const s: Settings
    var lastSeen: map<string, int>
    var buckets: map<string, Bucket>
    var counter: nat

    function View(): State
      reads this
    {
      State(lastSeen, buckets, counter)
    }

    constructor (o: Options)
      ensures s == Configure(o) && View() == FRESH
    {
      s := Configure(o);
      lastSeen, buckets, counter := map[], map[], 0;
    }

    method ConsumeToken(rule: string, now: int) returns (ok: bool)
      modifies this`buckets
      ensures var tokens := Avail(s, old(buckets), rule, now);
              && ok == (tokens >= 1.0)
              && buckets == old(buckets)[rule := Bucket(if ok then tokens - 1.0 else tokens, now)]
    {
      if rule !in buckets {
        buckets := buckets[rule := Bucket(s.burst, now)];
        assert Gain(s, 0) == 0.0;
      }
      var tokens := buckets[rule].tokens + Gain(s, now - buckets[rule].last);
      if tokens > s.burst {
        tokens := s.burst;
      }
      if tokens < 1.0 {
        buckets := buckets[rule := Bucket(tokens, now)];
        return false;
      }
      buckets := buckets[rule := Bucket(tokens - 1.0, now)];
      return true;
    }

    method EvictStale(now: int)
      modifies this`lastSeen
      ensures lastSeen == Sweep(s, old(lastSeen), now)
    {
      var todo := lastSeen.Keys;
      while todo != {}
        invariant todo <= old(lastSeen).Keys
        invariant forall k :: k in lastSeen <==>
          k in old(lastSeen) && (k in todo || now - old(lastSeen)[k] <= Threshold(s))
        invariant forall k :: k in lastSeen ==> lastSeen[k] == old(lastSeen)[k]
        decreases |todo|
      {
        var k :| k in todo;
        if now - lastSeen[k] > Threshold(s) {
          lastSeen := lastSeen - {k};
        }
        todo := todo - {k};
      }
    }

    method Allow(c: Call) returns (verdict: Verdict)
      modifies this
      ensures verdict == VerdictOf(s, old(View()), c)
      ensures View() == Next(s, true, old(View()), c)
    {
      var cooldown := Cooldown(s, c.category);
      if cooldown > 0 && c.key in lastSeen && c.now - lastSeen[c.key] < cooldown {
        return CooldownHit;
      }
      if s.rate > 0.0 && c.rule != "" {
        var ok := ConsumeToken(c.rule, c.now);
        if !ok {
          return RateLimited;
        }
      }
      lastSeen := lastSeen[c.key := c.now];
      counter := counter + 1;
      if counter >= SWEEP_EVERY {
        counter := 0;
        EvictStale(c.now);
      }
      return Allowed;
    }

    method SaveState() returns (file: StateFile)
      ensures file == Persist(Some(lastSeen), Some(buckets))
    {
      file := Persist(Some(lastSeen), Some(buckets));
    }

    /** A missing file is a fresh start, and one that cannot be read an error; both leave the state
        alone, as does a map the file lacks.  The sweep counter is not part of it. */
    method LoadState(file: StateFile) returns (ok: bool)
      modifies this`lastSeen, this`buckets
      ensures ok <==> file != Unreadable
      ensures View() ==
              if !file.Persist? then old(View())
              else State(file.seen.GetOr(old(lastSeen)), file.tokens.GetOr(old(buckets)), old(counter))
    {
      match file {
        case Missing => return true;
        case Unreadable => return false;
        case Persist(seen, tokens) =>
          if seen.Some? {
            lastSeen := seen.value;
          }
          if tokens.Some? {
            buckets := tokens.value;
          }
          return true;
      }
    }
  }

  /** The state file as LoadState finds it: absent, not decodable, or with the two maps, either of
      which may be lacking. */
  datatype StateFile =
    | Missing
    | Unreadable
    | Persist(seen: Option<map<string, int>>, tokens: Option<map<string, Bucket>>)

  // ---------------------------------------------------------------- runs

  function After(s: Settings, sweep: bool, st: State, calls: seq<Call>): State {
    if calls == [] then st
    else Next(s, sweep, After(s, sweep, st, calls[..|calls| - 1]), calls[|calls| - 1])
  }

  /** The answer to call `i` of a run. */
  function Answer(s: Settings, sweep: bool, st: State, calls: seq<Call>, i: nat): Verdict
    requires i < |calls|
  {
    VerdictOf(s, After(s, sweep, st, calls[..i]), calls[i])
  }

  /** The clock never goes back, and starts no earlier than `start`. */
  predicate Clocked(calls: seq<Call>, start: int) {
    (forall i :: 0 <= i < |calls| ==> start <= calls[i].now) &&
    (forall i, j :: 0 <= i < j < |calls| ==> calls[i].now <= calls[j].now)
  }

  function LastTime(calls: seq<Call>, start: int): int {
    if calls == [] then start else calls[|calls| - 1].now
  }

  lemma AfterStep(s: Settings, sweep: bool, st: State, calls: seq<Call>, i: nat)
    requires i < |calls|
    ensures After(s, sweep, st, calls[..i + 1]) == Next(s, sweep, After(s, sweep, st, calls[..i]), calls[i])
  {
    assert calls[..i + 1][..i] == calls[..i];
  }

  // ---------------------------------------------------------------- eviction is invisible

  /** A key as a call at `now` could still feel it. */
  function Live(s: Settings, st: State, k: string, now: int): Option<int> {
    if k in st.lastSeen && now - st.lastSeen[k] < Longest(s) then Some(st.lastSeen[k]) else None
  }

  ghost predicate Alike(s: Settings, a: State, b: State, now: int) {
    a.buckets == b.buckets && forall k :: Live(s, a, k, now) == Live(s, b, k, now)
  }

  lemma LiveShrinks(s: Settings, st: State, k: string, t: int, now: int)
    requires t <= now
    ensures Live(s, st, k, now) ==
            match Live(s, st, k, t) { case None => None case Some(u) => if now - u < Longest(s) then Some(u) else None }
  {
  }

  /** A key cools down a call only while it is live. */
  lemma CoolingIsLive(s: Settings, st: State, c: Call)
    requires Sane(s)
    ensures CoolingDown(s, st, c) <==>
            && Cooldown(s, c.category) > 0 && Live(s, st, c.key, c.now).Some?
            && c.now - Live(s, st, c.key, c.now).value < Cooldown(s, c.category)
  {
  }

  /** A sweep removes nothing that is live. */
  lemma LiveAfterAllowed(s: Settings, sweep: bool, st: State, c: Call, k: string)
    requires Sane(s) && VerdictOf(s, st, c) == Allowed
    ensures Live(s, Next(s, sweep, st, c), k, c.now) == if k == c.key then Some(c.now) else Live(s, st, k, c.now)
  {
    assert Threshold(s) == 2 * Longest(s);
  }

  lemma AlikeStep(s: Settings, sweepA: bool, sweepB: bool, a: State, b: State, c: Call, t: int)
    requires Sane(s) && Alike(s, a, b, t) && t <= c.now
    ensures VerdictOf(s, a, c) == VerdictOf(s, b, c)
    ensures Alike(s, Next(s, sweepA, a, c), Next(s, sweepB, b, c), c.now)
  {
    forall k
      ensures Live(s, a, k, c.now) == Live(s, b, k, c.now)
    {
      LiveShrinks(s, a, k, t, c.now);
      LiveShrinks(s, b, k, t, c.now);
    }
    CoolingIsLive(s, a, c);
    CoolingIsLive(s, b, c);
    assert VerdictOf(s, a, c) == VerdictOf(s, b, c);
    forall k
      ensures Live(s, Next(s, sweepA, a, c), k, c.now) == Live(s, Next(s, sweepB, b, c), k, c.now)
    {
      if VerdictOf(s, a, c) == Allowed {
        LiveAfterAllowed(s, sweepA, a, c, k);
        LiveAfterAllowed(s, sweepB, b, c, k);
      } else {
        assert Next(s, sweepA, a, c).lastSeen == a.lastSeen && Next(s, sweepB, b, c).lastSeen == b.lastSeen;
        assert Live(s, a, k, c.now) == Live(s, b, k, c.now);
      }
    }
  }

  lemma {:induction false} AlikeRuns(s: Settings, sweepA: bool, sweepB: bool, a: State, b: State, calls: seq<Call>,
                                     start: int)
    requires Sane(s) && Alike(s, a, b, start) && Clocked(calls, start)
    ensures Alike(s, After(s, sweepA, a, calls), After(s, sweepB, b, calls), LastTime(calls, start))
  {
    if calls != [] {
      var n := |calls| - 1;
      AlikeRuns(s, sweepA, sweepB, a, b, calls[..n], start);
      AlikeStep(s, sweepA, sweepB, After(s, sweepA, a, calls[..n]), After(s, sweepB, b, calls[..n]), calls[n],
                LastTime(calls[..n], start));
    }
  }

  /** Two suppressors that agree on their buckets and on every live key answer every call of every
      run alike, whether or not and whenever they sweep. */
  lemma AlikeAnswers(s: Settings, sweepA: bool, sweepB: bool, a: State, b: State, calls: seq<Call>, start: int, i: nat)
    requires Sane(s) && Alike(s, a, b, start) && Clocked(calls, start) && i < |calls|
    ensures Answer(s, sweepA, a, calls, i) == Answer(s, sweepB, b, calls, i)
  {
    AlikeRuns(s, sweepA, sweepB, a, b, calls[..i], start);
    AlikeStep(s, sweepA, sweepB, After(s, sweepA, a, calls[..i]), After(s, sweepB, b, calls[..i]), calls[i],
              LastTime(calls[..i], start));
  }

  /** Eviction is invisible. */
  lemma EvictionInvisible(s: Settings, st: State, calls: seq<Call>, start: int, i: nat)
    requires Sane(s) && Clocked(calls, start) && i < |calls|
    ensures Answer(s, true, st, calls, i) == Answer(s, false, st, calls, i)
  {
    AlikeAnswers(s, true, false, st, st, calls, start, i);
  }

  /** Saving and loading into a fresh suppressor with the same options changes no later answer,
      although the sweep counter starts over. */
  lemma SaveLoadInvisible(s: Settings, st: State, calls: seq<Call>, start: int, i: nat)
    requires Sane(s) && Clocked(calls, start) && i < |calls|
    ensures Answer(s, true, State(st.lastSeen, st.buckets, 0), calls, i) == Answer(s, true, st, calls, i)
  {
    AlikeAnswers(s, true, true, State(st.lastSeen, st.buckets, 0), st, calls, start, i);
  }

  /** A restart: what one suppressor saves, a new one with the same options loads; from then on it
      answers every call of every run as the first one would have. */
  method HandOver(g: Gate, o: Options) returns (h: Gate)
    requires g.s == Configure(o) && Sane(g.s)
    ensures fresh(h) && h.s == g.s
    ensures forall calls: seq<Call>, start: int, i: nat :: Clocked(calls, start) && i < |calls| ==>
              Answer(h.s, true, h.View(), calls, i) == Answer(g.s, true, g.View(), calls, i)
  {
    var file := g.SaveState();
    h := new Gate(o);
    var ok := h.LoadState(file);
    ghost var st := g.View();
    assert h.View() == State(st.lastSeen, st.buckets, 0);
    forall calls: seq<Call>, start: int, i: nat | Clocked(calls, start) && i < |calls|
      ensures Answer(h.s, true, h.View(), calls, i) == Answer(g.s, true, g.View(), calls, i)
    {
      SaveLoadInvisible(g.s, st, calls, start, i);
    }
  }

  /** The bound on the cooldowns is needed: from 2^62 nanoseconds on, doubling wraps to a negative
      threshold, the sweep empties the map, and an immediate repeat of the call that triggered it
      is no longer held back by the cooldown. */
  lemma OverflowForgets(s: Settings, st: State, c: Call)
    requires 0x4000_0000_0000_0000 <= Longest(s) < 0x8000_0000_0000_0000
    requires st.counter == 999 && Cooldown(s, c.category) > 0 && VerdictOf(s, st, c) == Allowed
    requires forall k :: k in st.lastSeen ==> st.lastSeen[k] <= c.now
    ensures Next(s, true, st, c).lastSeen == map[]
    ensures VerdictOf(s, Next(s, false, st, c), c) == CooldownHit
    ensures VerdictOf(s, Next(s, true, st, c), c) != CooldownHit
  {
    assert Threshold(s) < 0;
    var seen := st.lastSeen[c.key := c.now];
    assert forall k :: k in seen ==> c.now - seen[k] >= 0;
    assert Sweep(s, seen, c.now) == map[];
  }

  /** Calls on one key: a thousand of a category without cooldown, which is when the suppressor
      sweeps, then one more. */
  function SweepThenRepeat(key: string): seq<Call> {
    seq(1001, i => Call(if i < 1000 then "other" else "process", "", key, 0))
  }

  lemma {:induction false} BeforeSweep(s: Settings, sweep: bool, key: string, n: nat)
    requires n < 1000
    ensures After(s, sweep, FRESH, SweepThenRepeat(key)[..n])
            == State(if n == 0 then map[] else map[key := 0], map[], n)
  {
    if n > 0 {
      BeforeSweep(s, sweep, key, n - 1);
      AfterStep(s, sweep, FRESH, SweepThenRepeat(key), n - 1);
      FreeCall(s, sweep, After(s, sweep, FRESH, SweepThenRepeat(key)[..n - 1]), key);
    }
  }

  /** A call that neither cools down nor is limited. */
  lemma FreeCall(s: Settings, sweep: bool, st: State, key: string)
    requires st.counter + 1 < 1000
    ensures Next(s, sweep, st, Call("other", "", key, 0)) == State(st.lastSeen[key := 0], st.buckets, st.counter + 1)
  {
  }

  lemma AtSweep(s: Settings, sweep: bool, key: string)
    requires 0x4000_0000_0000_0000 <= Longest(s) < 0x8000_0000_0000_0000
    ensures After(s, sweep, FRESH, SweepThenRepeat(key)[..1000]).lastSeen ==
            if sweep then map[] else map[key := 0]
  {
    BeforeSweep(s, sweep, key, 999);
    AfterStep(s, sweep, FRESH, SweepThenRepeat(key), 999);
    assert Threshold(s) < 0;
    assert Sweep(s, map[key := 0], 0) == map[];
  }

  /** Exactly the cooldowns below 2^62 nanoseconds make eviction invisible in every run of a new
      suppressor. */
  lemma EvictionInvisibleIff(s: Settings)
    requires s.process > 0 && s.file > 0 && s.network > 0 && Longest(s) < 0x8000_0000_0000_0000
    requires s.rate >= 0.0 && s.burst >= 0.0
    ensures Longest(s) < 0x4000_0000_0000_0000 <==>
            forall calls: seq<Call>, start: int, i: nat :: Clocked(calls, start) && i < |calls| ==>
              Answer(s, true, FRESH, calls, i) == Answer(s, false, FRESH, calls, i)
  {
    if Longest(s) < 0x4000_0000_0000_0000 {
      forall calls: seq<Call>, start: int, i: nat | Clocked(calls, start) && i < |calls|
        ensures Answer(s, true, FRESH, calls, i) == Answer(s, false, FRESH, calls, i)
      {
        EvictionInvisible(s, FRESH, calls, start, i);
      }
    } else {
      var calls := SweepThenRepeat("key");
      assert Clocked(calls, 0);
      AtSweep(s, true, "key");
      AtSweep(s, false, "key");
      assert Answer(s, true, FRESH, calls, 1000) != Answer(s, false, FRESH, calls, 1000);
    }
  }

  // ---------------------------------------------------------------- spacing

  /** Once a call on a key was allowed, the never-sweeping suppressor remembers a time no earlier. */
  lemma {:induction false} Remembered(s: Settings, st: State, calls: seq<Call>, start: int, i: nat, n: nat)
    requires Clocked(calls, start) && i < n <= |calls|
    requires Answer(s, false, st, calls, i) == Allowed
    ensures Holds(After(s, false, st, calls[..n]).lastSeen, calls[i].key, calls[i].now)
    decreases n
  {
    if i == n - 1 {
      RememberedNow(s, st, calls, i);
    } else {
      Remembered(s, st, calls, start, i, n - 1);
      RememberedOn(s, st, calls, n - 1, calls[i].key, calls[i].now);
    }
  }

  lemma RememberedNow(s: Settings, st: State, calls: seq<Call>, i: nat)
    requires i < |calls| && Answer(s, false, st, calls, i) == Allowed
    ensures Holds(After(s, false, st, calls[..i + 1]).lastSeen, calls[i].key, calls[i].now)
  {
    AfterStep(s, false, st, calls, i);
    RememberNew(s, After(s, false, st, calls[..i]), calls[i]);
  }

  lemma RememberedOn(s: Settings, st: State, calls: seq<Call>, n: nat, key: string, t: int)
    requires n < |calls| && t <= calls[n].now && Holds(After(s, false, st, calls[..n]).lastSeen, key, t)
    ensures Holds(After(s, false, st, calls[..n + 1]).lastSeen, key, t)
  {
    AfterStep(s, false, st, calls, n);
    RememberStep(s, After(s, false, st, calls[..n]), calls[n], key, t);
  }

  /** The key was last seen at `t` or later. */
  predicate Holds(seen: map<string, int>, key: string, t: int) {
    key in seen && t <= seen[key]
  }

  lemma RememberNew(s: Settings, st: State, c: Call)
    requires VerdictOf(s, st, c) == Allowed
    ensures Holds(Next(s, false, st, c).lastSeen, c.key, c.now)
  {
  }

  lemma RememberStep(s: Settings, st: State, c: Call, key: string, t: int)
    requires Holds(st.lastSeen, key, t) && t <= c.now
    ensures Holds(Next(s, false, st, c).lastSeen, key, t)
  {
  }

  /** Two allowed calls on one key are at least the later call's cooldown apart, in every run. */
  lemma AllowedCallsAreSpaced(s: Settings, st: State, calls: seq<Call>, start: int, i: nat, j: nat)
    requires Sane(s) && Clocked(calls, start) && i < j < |calls|
    requires Answer(s, true, st, calls, i) == Allowed && Answer(s, true, st, calls, j) == Allowed
    requires calls[i].key == calls[j].key
    ensures calls[j].now - calls[i].now >= Cooldown(s, calls[j].category)
    ensures calls[j].category == "process" ==> calls[j].now - calls[i].now >= s.process
    ensures calls[j].category == "file" ==> calls[j].now - calls[i].now >= s.file
    ensures calls[j].category == "network" ==> calls[j].now - calls[i].now >= s.network
  {
    EvictionInvisible(s, st, calls, start, i);
    EvictionInvisible(s, st, calls, start, j);
    Remembered(s, st, calls, start, i, j);
  }

  // ---------------------------------------------------------------- denied calls are invisible

  /** No bucket was touched after `now`. */
  predicate Settled(buckets: map<string, Bucket>, now: int) {
    forall r :: r in buckets ==> buckets[r].last <= now
  }

  lemma GainAdds(s: Settings, d: int, e: int)
    ensures Gain(s, d + e) == Gain(s, d) + Gain(s, e)
  {
    var x, y := d as real / NANOS, e as real / NANOS;
    assert (d + e) as real / NANOS == x + y;
    assert (x + y) * s.rate == x * s.rate + y * s.rate;
  }

  lemma GainGrows(s: Settings, d: int)
    requires s.rate >= 0.0 && d >= 0
    ensures Gain(s, d) >= 0.0
  {
    var x := d as real / NANOS;
    assert x >= 0.0;
    assert x * s.rate >= 0.0;
  }

  /** Refilling composes through the clamp: looking at a bucket halfway loses nothing. */
  lemma AvailComposes(s: Settings, buckets: map<string, Bucket>, rule: string, t: int, now: int)
    requires s.rate >= 0.0 && Settled(buckets, t) && t <= now
    ensures Avail(s, buckets, rule, now) == Clamp(s, Avail(s, buckets, rule, t) + Gain(s, now - t))
  {
    GainGrows(s, now - t);
    if rule in buckets {
      GainAdds(s, t - buckets[rule].last, now - t);
      assert now - buckets[rule].last == (t - buckets[rule].last) + (now - t);
    }
  }

  /** Same keys, same counter, and the same tokens for every rule from `now` on. */
  ghost predicate SameFuture(s: Settings, a: State, b: State, now: int) {
    && a.lastSeen == b.lastSeen && a.counter == b.counter
    && Settled(a.buckets, now) && Settled(b.buckets, now)
    && forall r :: Avail(s, a.buckets, r, now) == Avail(s, b.buckets, r, now)
  }

  lemma SameFutureLater(s: Settings, a: State, b: State, t: int, now: int)
    requires s.rate >= 0.0 && SameFuture(s, a, b, t) && t <= now
    ensures SameFuture(s, a, b, now)
  {
    forall r
      ensures Avail(s, a.buckets, r, now) == Avail(s, b.buckets, r, now)
    {
      AvailComposes(s, a.buckets, r, t, now);
      AvailComposes(s, b.buckets, r, t, now);
    }
  }

  lemma AvailAfter(s: Settings, st: State, c: Call, r: string)
    requires s.burst >= 0.0
    ensures Avail(s, BucketsAfter(s, st, c), r, c.now) ==
            if r == c.rule && Limited(s, c) && VerdictOf(s, st, c) == Allowed
            then Avail(s, st.buckets, r, c.now) - 1.0 else Avail(s, st.buckets, r, c.now)
  {
    assert Gain(s, 0) == 0.0;
  }

  /** The same call on both sides. */
  lemma SameFutureStep(s: Settings, a: State, b: State, c: Call)
    requires s.burst >= 0.0 && SameFuture(s, a, b, c.now)
    ensures VerdictOf(s, a, c) == VerdictOf(s, b, c)
    ensures SameFuture(s, Next(s, true, a, c), Next(s, true, b, c), c.now)
  {
    assert Avail(s, a.buckets, c.rule, c.now) == Avail(s, b.buckets, c.rule, c.now);
    forall r
      ensures Avail(s, BucketsAfter(s, a, c), r, c.now) == Avail(s, BucketsAfter(s, b, c), r, c.now)
    {
      AvailAfter(s, a, c, r);
      AvailAfter(s, b, c, r);
    }
  }

  /** A denied call on one side only. */
  lemma DeniedStep(s: Settings, a: State, b: State, c: Call)
    requires s.burst >= 0.0 && SameFuture(s, a, b, c.now) && VerdictOf(s, a, c) != Allowed
    ensures SameFuture(s, Next(s, true, a, c), b, c.now)
  {
    forall r
      ensures Avail(s, BucketsAfter(s, a, c), r, c.now) == Avail(s, b.buckets, r, c.now)
    {
      AvailAfter(s, a, c, r);
      assert Avail(s, a.buckets, r, c.now) == Avail(s, b.buckets, r, c.now);
    }
  }

  /** The calls with `keep` set. */
  function Reduced(calls: seq<Call>, keep: seq<bool>): seq<Call>
    requires |keep| == |calls|
  {
    if calls == [] then [] else
    var n := |calls| - 1;
    Reduced(calls[..n], keep[..n]) + if keep[n] then [calls[n]] else []
  }

  ghost predicate DropsOnlyDenied(s: Settings, st: State, calls: seq<Call>, keep: seq<bool>) {
    |keep| == |calls| && forall i :: 0 <= i < |calls| && !keep[i] ==> Answer(s, true, st, calls, i) != Allowed
  }

  lemma DropsPrefix(s: Settings, st: State, calls: seq<Call>, keep: seq<bool>, n: nat)
    requires DropsOnlyDenied(s, st, calls, keep) && n <= |calls|
    ensures DropsOnlyDenied(s, st, calls[..n], keep[..n])
  {
    forall i | 0 <= i < n && !keep[i]
      ensures Answer(s, true, st, calls[..n], i) != Allowed
    {
      assert calls[..n][..i] == calls[..i];
    }
  }

  lemma {:induction false} ReducedRun(s: Settings, st: State, calls: seq<Call>, keep: seq<bool>, start: int)
    requires Sane(s) && Clocked(calls, start) && Settled(st.buckets, start)
    requires DropsOnlyDenied(s, st, calls, keep)
    ensures SameFuture(s, After(s, true, st, calls), After(s, true, st, Reduced(calls, keep)), LastTime(calls, start))
  {
    if calls != [] {
      var n := |calls| - 1;
      DropsPrefix(s, st, calls, keep, n);
      ReducedRun(s, st, calls[..n], keep[..n], start);
      var a, b, c := After(s, true, st, calls[..n]), After(s, true, st, Reduced(calls[..n], keep[..n])), calls[n];
      SameFutureLater(s, a, b, LastTime(calls[..n], start), c.now);
      var reduced := Reduced(calls, keep);
      if keep[n] {
        assert reduced[..|reduced| - 1] == Reduced(calls[..n], keep[..n]);
        SameFutureStep(s, a, b, c);
      } else {
        assert reduced == Reduced(calls[..n], keep[..n]);
        assert Answer(s, true, st, calls, n) != Allowed;
        DeniedStep(s, a, b, c);
      }
    }
  }

  /** Denied calls are invisible: leaving any of them out of a run changes no answer to the calls
      that remain. */
  lemma DeniedCallsInvisible(s: Settings, st: State, calls: seq<Call>, keep: seq<bool>, start: int, i: nat)
    requires Sane(s) && Clocked(calls, start) && Settled(st.buckets, start)
    requires DropsOnlyDenied(s, st, calls, keep) && i < |calls| && keep[i]
    ensures var k := |Reduced(calls[..i], keep[..i])|;
            var reduced := Reduced(calls[..i + 1], keep[..i + 1]);
            && k < |reduced| && reduced[k] == calls[i]
            && Answer(s, true, st, reduced, k) == Answer(s, true, st, calls, i)
  {
    DropsPrefix(s, st, calls, keep, i);
    ReducedRun(s, st, calls[..i], keep[..i], start);
    var a, b := After(s, true, st, calls[..i]), After(s, true, st, Reduced(calls[..i], keep[..i]));
    SameFutureLater(s, a, b, LastTime(calls[..i], start), calls[i].now);
    SameFutureStep(s, a, b, calls[i]);
    assert calls[..i + 1][..i] == calls[..i] && keep[..i + 1][..i] == keep[..i];
    var k, reduced := |Reduced(calls[..i], keep[..i])|, Reduced(calls[..i + 1], keep[..i + 1]);
    assert reduced[..k] == Reduced(calls[..i], keep[..i]);
  }

  // ---------------------------------------------------------------- rate bound

  /** Allowed calls of a rule among calls `i` to `j - 1`. */
  function Emitted(s: Settings, st: State, calls: seq<Call>, rule: string, i: nat, j: nat): nat
    requires i <= j <= |calls|
    decreases j
  {
    if i == j then 0
    else Emitted(s, st, calls, rule, i, j - 1) +
         if calls[j - 1].rule == rule && Answer(s, true, st, calls, j - 1) == Allowed then 1 else 0
  }

  predicate NonNegative(buckets: map<string, Bucket>) {
    forall r :: r in buckets ==> buckets[r].tokens >= 0.0
  }

  lemma {:induction false} RunSettled(s: Settings, st: State, calls: seq<Call>, start: int)
    requires Sane(s) && Clocked(calls, start) && Settled(st.buckets, start) && NonNegative(st.buckets)
    ensures var buckets := After(s, true, st, calls).buckets;
            Settled(buckets, LastTime(calls, start)) && NonNegative(buckets)
  {
    if calls != [] {
      var n := |calls| - 1;
      RunSettled(s, st, calls[..n], start);
      var a, c := After(s, true, st, calls[..n]), calls[n];
      AvailBounds(s, a.buckets, c.rule, c.now);
    }
  }

  lemma AvailBounds(s: Settings, buckets: map<string, Bucket>, rule: string, now: int)
    requires Sane(s) && Settled(buckets, now) && NonNegative(buckets)
    ensures 0.0 <= Avail(s, buckets, rule, now) <= s.burst
  {
    if rule in buckets {
      GainGrows(s, now - buckets[rule].last);
    }
  }

  /** As call `n` comes in: what the rule emitted since call `i` and what is left never exceed a full
      bucket and what time has brought. */
  predicate BudgetKept(s: Settings, st: State, calls: seq<Call>, rule: string, i: nat, n: nat)
    requires i <= n < |calls|
  {
    WithinBudget(s, After(s, true, st, calls[..n]).buckets, rule, calls[i].now, calls[n].now,
                 Emitted(s, st, calls, rule, i, n))
  }

  lemma {:induction false} BudgetBefore(s: Settings, st: State, calls: seq<Call>, start: int, rule: string, i: nat,
                                        n: nat)
    requires Sane(s) && Clocked(calls, start) && Settled(st.buckets, start) && NonNegative(st.buckets)
    requires s.rate > 0.0 && rule != "" && i <= n < |calls|
    ensures BudgetKept(s, st, calls, rule, i, n)
    decreases n
  {
    if i == n {
      BudgetStart(s, st, calls, start, rule, n);
    } else {
      BudgetBefore(s, st, calls, start, rule, i, n - 1);
      BudgetNext(s, st, calls, start, rule, i, n - 1);
    }
  }

  lemma BudgetStart(s: Settings, st: State, calls: seq<Call>, start: int, rule: string, n: nat)
    requires Sane(s) && Clocked(calls, start) && Settled(st.buckets, start) && NonNegative(st.buckets)
    requires n < |calls|
    ensures BudgetKept(s, st, calls, rule, n, n)
  {
    SettledAt(s, st, calls, start, n);
    NothingSpent(s, After(s, true, st, calls[..n]).buckets, rule, calls[n].now);
  }

  lemma SettledAt(s: Settings, st: State, calls: seq<Call>, start: int, n: nat)
    requires Sane(s) && Clocked(calls, start) && Settled(st.buckets, start) && NonNegative(st.buckets)
    requires n < |calls|
    ensures var buckets := After(s, true, st, calls[..n]).buckets;
            && Settled(buckets, calls[n].now) && NonNegative(buckets)
            && (n > 0 ==> Settled(buckets, calls[n - 1].now))
  {
    RunSettled(s, st, calls[..n], start);
  }

  lemma BudgetNext(s: Settings, st: State, calls: seq<Call>, start: int, rule: string, i: nat, n: nat)
    requires Sane(s) && Clocked(calls, start) && Settled(st.buckets, start) && NonNegative(st.buckets)
    requires s.rate > 0.0 && rule != "" && i <= n && n + 1 < |calls| && BudgetKept(s, st, calls, rule, i, n)
    ensures BudgetKept(s, st, calls, rule, i, n + 1)
  {
    SettledAt(s, st, calls, start, n + 1);
    BudgetCall(s, st, calls, rule, i, n);
    Refilled(s, After(s, true, st, calls[..n + 1]).buckets, rule, calls[i].now, calls[n].now, calls[n + 1].now,
             Emitted(s, st, calls, rule, i, n + 1));
  }

  lemma BudgetCall(s: Settings, st: State, calls: seq<Call>, rule: string, i: nat, n: nat)
    requires Sane(s) && s.rate > 0.0 && rule != "" && i <= n < |calls|
    requires WithinBudget(s, After(s, true, st, calls[..n]).buckets, rule, calls[i].now, calls[n].now,
                          Emitted(s, st, calls, rule, i, n))
    ensures WithinBudget(s, After(s, true, st, calls[..n + 1]).buckets, rule, calls[i].now, calls[n].now,
                         Emitted(s, st, calls, rule, i, n + 1))
  {
    AfterStep(s, true, st, calls, n);
    BudgetStep(s, After(s, true, st, calls[..n]), calls[n], rule, calls[i].now, Emitted(s, st, calls, rule, i, n));
  }

  /** What was emitted since `first` and what is left are covered by the burst and the time passed. */
  predicate WithinBudget(s: Settings, buckets: map<string, Bucket>, rule: string, first: int, now: int, emitted: nat) {
    emitted as real + Avail(s, buckets, rule, now) <= s.burst + Gain(s, now - first)
  }

  lemma NothingSpent(s: Settings, buckets: map<string, Bucket>, rule: string, now: int)
    requires Sane(s) && Settled(buckets, now) && NonNegative(buckets)
    ensures WithinBudget(s, buckets, rule, now, now, 0)
  {
    AvailBounds(s, buckets, rule, now);
    assert Gain(s, 0) == 0.0;
  }

  lemma Refilled(s: Settings, buckets: map<string, Bucket>, rule: string, first: int, t: int, now: int, emitted: nat)
    requires Sane(s) && Settled(buckets, t) && t <= now && WithinBudget(s, buckets, rule, first, t, emitted)
    ensures WithinBudget(s, buckets, rule, first, now, emitted)
  {
    Earned(s, buckets, rule, first, t, now);
  }

  /** One call spends a token or none. */
  lemma BudgetStep(s: Settings, a: State, c: Call, rule: string, first: int, emitted: nat)
    requires Sane(s) && s.rate > 0.0 && rule != "" && WithinBudget(s, a.buckets, rule, first, c.now, emitted)
    ensures WithinBudget(s, Next(s, true, a, c).buckets, rule, first, c.now,
                         emitted + if c.rule == rule && VerdictOf(s, a, c) == Allowed then 1 else 0)
  {
    AvailAfter(s, a, c, rule);
  }

  /** Between two moments a rule gains no more than time brings. */
  lemma Earned(s: Settings, buckets: map<string, Bucket>, rule: string, first: int, t: int, now: int)
    requires Sane(s) && Settled(buckets, t) && t <= now
    ensures Avail(s, buckets, rule, now) - Avail(s, buckets, rule, t) <= Gain(s, now - first) - Gain(s, t - first)
  {
    AvailComposes(s, buckets, rule, t, now);
    GainAdds(s, t - first, now - t);
    assert now - first == (t - first) + (now - t);
  }

  /** Gains in nanoseconds: a second's worth is the rate. */
  lemma GainInNanos(s: Settings, d: int)
    ensures Gain(s, d) * 1_000_000_000.0 == s.rate * d as real
  {
    assert d as real / NANOS * 1_000_000_000.0 == d as real;
    assert Gain(s, d) * 1_000_000_000.0 == (d as real / NANOS * 1_000_000_000.0) * s.rate;
  }

  lemma InNanos(s: Settings, x: real, d: int)
    ensures x <= s.burst + Gain(s, d) <==> x * 1_000_000_000.0 <= s.burst * 1_000_000_000.0 + s.rate * d as real
  {
    GainInNanos(s, d);
    assert (s.burst + Gain(s, d)) * 1_000_000_000.0 == s.burst * 1_000_000_000.0 + s.rate * d as real;
  }

  lemma WithinTokens(s: Settings, st: State, calls: seq<Call>, start: int, rule: string, i: nat, n: nat)
    requires Sane(s) && Clocked(calls, start) && Settled(st.buckets, start) && NonNegative(st.buckets)
    requires s.rate > 0.0 && rule != "" && i <= n < |calls|
    ensures SpentWithin(s, calls[n].now - calls[i].now, Emitted(s, st, calls, rule, i, n + 1))
  {
    BudgetAfter(s, st, calls, start, rule, i, n);
    SettledAfter(s, st, calls, start, n);
    EmittedWithin(s, After(s, true, st, calls[..n + 1]).buckets, rule, calls[i].now, calls[n].now,
                  Emitted(s, st, calls, rule, i, n + 1));
  }

  predicate SpentWithin(s: Settings, elapsed: int, emitted: nat) {
    emitted as real <= s.burst + Gain(s, elapsed)
  }

  lemma SettledAfter(s: Settings, st: State, calls: seq<Call>, start: int, n: nat)
    requires Sane(s) && Clocked(calls, start) && Settled(st.buckets, start) && NonNegative(st.buckets)
    requires n < |calls|
    ensures var buckets := After(s, true, st, calls[..n + 1]).buckets;
            Settled(buckets, calls[n].now) && NonNegative(buckets)
  {
    RunSettled(s, st, calls[..n + 1], start);
  }

  lemma BudgetAfter(s: Settings, st: State, calls: seq<Call>, start: int, rule: string, i: nat, n: nat)
    requires Sane(s) && Clocked(calls, start) && Settled(st.buckets, start) && NonNegative(st.buckets)
    requires s.rate > 0.0 && rule != "" && i <= n < |calls|
    ensures WithinBudget(s, After(s, true, st, calls[..n + 1]).buckets, rule, calls[i].now, calls[n].now,
                         Emitted(s, st, calls, rule, i, n + 1))
  {
    BudgetBefore(s, st, calls, start, rule, i, n);
    BudgetCall(s, st, calls, rule, i, n);
  }

  lemma EmittedWithin(s: Settings, buckets: map<string, Bucket>, rule: string, first: int, now: int, emitted: nat)
    requires Sane(s) && Settled(buckets, now) && NonNegative(buckets)
    requires WithinBudget(s, buckets, rule, first, now, emitted)
    ensures SpentWithin(s, now - first, emitted)
  {
    AvailBounds(s, buckets, rule, now);
  }

  /** Rate bound: over every stretch of every run, whatever the keys and the other rules do, the
      emits of a rule number at most the burst plus the rate times the seconds covered. */
  lemma RateBound(s: Settings, st: State, calls: seq<Call>, start: int, rule: string, i: nat, j: nat)
    requires Sane(s) && Clocked(calls, start) && Settled(st.buckets, start) && NonNegative(st.buckets)
    requires s.rate > 0.0 && rule != "" && i < j <= |calls|
    ensures Emitted(s, st, calls, rule, i, j) as real * 1_000_000_000.0
         <= s.burst * 1_000_000_000.0 + s.rate * (calls[j - 1].now - calls[i].now) as real
  {
    WithinTokens(s, st, calls, start, rule, i, j - 1);
    SpentInNanos(s, calls[j - 1].now - calls[i].now, Emitted(s, st, calls, rule, i, j));
  }

  lemma SpentInNanos(s: Settings, elapsed: int, emitted: nat)
    requires SpentWithin(s, elapsed, emitted)
    ensures emitted as real * 1_000_000_000.0 <= s.burst * 1_000_000_000.0 + s.rate * elapsed as real
  {
    InNanos(s, emitted as real, elapsed);
  }
}
