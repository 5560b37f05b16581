/** Every answer of a new suppressor, told from the calls before it and their answers alone
    (internal/control/suppress.go). */
module SuppressorAnswers {
  import opened Wire
  import opened Suppressor

  /** The answer to call `i` of a suppressor that started out new. */
  function AnswerTo(s: Settings, calls: seq<Call>, i: nat): Verdict
    requires i < |calls|
  {
    Answer(s, true, FRESH, calls, i)
  }

  // ---------------------------------------------------------------- cooldowns

  /** `gap` nanoseconds are less than the cooldown of the category; other categories have none. */
  predicate TooSoon(s: Settings, category: string, gap: int) {
    || (category == "process" && gap < s.process)
    || (category == "file" && gap < s.file)
    || (category == "network" && gap < s.network)
  }

  predicate HoldsBack(s: Settings, calls: seq<Call>, i: nat, j: nat)
    requires i < j < |calls|
  {
    calls[i].key == calls[j].key && AnswerTo(s, calls, i) == Allowed &&
    TooSoon(s, calls[j].category, calls[j].now - calls[i].now)
  }

  /** What the never-sweeping suppressor remembers of a key is the time of an allowed call on it. */
  lemma {:induction false} SeenFrom(s: Settings, calls: seq<Call>, key: string, n: nat) returns (i: nat)
    requires n <= |calls| && key in After(s, false, FRESH, calls[..n]).lastSeen
    ensures i < n && calls[i].key == key && Answer(s, false, FRESH, calls, i) == Allowed
    ensures After(s, false, FRESH, calls[..n]).lastSeen[key] == calls[i].now
    decreases n
  {
    if n == 0 {
      assert false;
    } else {
      AfterStep(s, false, FRESH, calls, n - 1);
      if calls[n - 1].key == key && Answer(s, false, FRESH, calls, n - 1) == Allowed {
        i := n - 1;
      } else {
        i := SeenFrom(s, calls, key, n - 1);
      }
    }
  }

  /** A call is held back by the cooldown exactly when an earlier allowed call on its key lies less
      than its own category's cooldown before it. */
  lemma CooldownIff(s: Settings, calls: seq<Call>, start: int, j: nat)
    requires Sane(s) && Clocked(calls, start) && j < |calls|
    ensures AnswerTo(s, calls, j) == CooldownHit <==> exists i :: 0 <= i < j && HoldsBack(s, calls, i, j)
  {
    var c, st := calls[j], After(s, false, FRESH, calls[..j]);
    EvictionInvisible(s, FRESH, calls, start, j);
    if CoolingDown(s, st, c) {
      var i := SeenFrom(s, calls, c.key, j);
      EvictionInvisible(s, FRESH, calls, start, i);
      assert HoldsBack(s, calls, i, j);
    }
    forall i | 0 <= i < j && HoldsBack(s, calls, i, j)
      ensures CoolingDown(s, st, c)
    {
      EvictionInvisible(s, FRESH, calls, start, i);
      Remembered(s, FRESH, calls, start, i, j);
    }
  }

  // ---------------------------------------------------------------- rates

  /** One emit more is covered by the burst and what `elapsed` nanoseconds bring. */
  predicate Covered(s: Settings, emitted: nat, elapsed: int) {
    (emitted + 1) as real * 1_000_000_000.0 <= s.burst * 1_000_000_000.0 + s.rate * elapsed as real
  }

  /** What the rule of call `j` emitted from call `k` on, and the call itself, are covered. */
  predicate CoveredSince(s: Settings, calls: seq<Call>, k: nat, j: nat)
    requires k <= j < |calls|
  {
    Covered(s, Emitted(s, FRESH, calls, calls[j].rule, k, j), calls[j].now - calls[k].now)
  }

  /** What the rule finds at call `j`. */
  function AvailAt(s: Settings, calls: seq<Call>, rule: string, j: nat): real
    requires j < |calls|
  {
    Avail(s, After(s, true, FRESH, calls[..j]).buckets, rule, calls[j].now)
  }

  /** What call `j` leaves its own and every other rule. */
  lemma LeftAfter(s: Settings, calls: seq<Call>, rule: string, j: nat)
    requires s.burst >= 0.0 && s.rate > 0.0 && rule != "" && j < |calls|
    ensures Avail(s, After(s, true, FRESH, calls[..j + 1]).buckets, rule, calls[j].now)
         == AvailAt(s, calls, rule, j) - Emitted(s, FRESH, calls, rule, j, j + 1) as real
  {
    AfterStep(s, true, FRESH, calls, j);
    AvailAfter(s, After(s, true, FRESH, calls[..j]), calls[j], rule);
    assert Emitted(s, FRESH, calls, rule, j, j) == 0;
  }

  lemma AvailNext(s: Settings, calls: seq<Call>, start: int, rule: string, j: nat)
    requires Sane(s) && Clocked(calls, start) && s.rate > 0.0 && rule != "" && j + 1 < |calls|
    ensures var left := AvailAt(s, calls, rule, j) - (Emitted(s, FRESH, calls, rule, j, j + 1) as real);
            AvailAt(s, calls, rule, j + 1) == Clamp(s, left + Gain(s, calls[j + 1].now - calls[j].now))
  {
    LeftAfter(s, calls, rule, j);
    RunSettled(s, FRESH, calls[..j + 1], start);
    AvailComposes(s, After(s, true, FRESH, calls[..j + 1]).buckets, rule, calls[j].now, calls[j + 1].now);
  }

  lemma {:induction false} EmittedSplit(s: Settings, calls: seq<Call>, rule: string, i: nat, k: nat, j: nat)
    requires i <= k <= j <= |calls|
    ensures Emitted(s, FRESH, calls, rule, i, j)
         == Emitted(s, FRESH, calls, rule, i, k) + Emitted(s, FRESH, calls, rule, k, j)
    decreases j
  {
    if k < j {
      EmittedSplit(s, calls, rule, i, k, j - 1);
    }
  }

  /** At call `j` the bucket holds what the burst and the time since call `k` bring, less what was
      emitted since: call `k` found it full. */
  predicate FullAt(s: Settings, calls: seq<Call>, rule: string, k: nat, j: nat)
    requires k <= j < |calls|
  {
    AvailAt(s, calls, rule, j)
    == s.burst + Gain(s, calls[j].now - calls[k].now) - Emitted(s, FRESH, calls, rule, k, j) as real
  }

  lemma FullNext(s: Settings, calls: seq<Call>, start: int, rule: string, k: nat, j: nat)
    requires Sane(s) && Clocked(calls, start) && s.rate > 0.0 && rule != "" && k <= j && j + 1 < |calls|
    requires FullAt(s, calls, rule, k, j)
    ensures FullAt(s, calls, rule, k, j + 1) || AvailAt(s, calls, rule, j + 1) == s.burst
  {
    AvailNext(s, calls, start, rule, j);
    EmittedSplit(s, calls, rule, k, j, j + 1);
    GainAdds(s, calls[j].now - calls[k].now, calls[j + 1].now - calls[j].now);
    assert calls[j + 1].now - calls[k].now == (calls[j].now - calls[k].now) + (calls[j + 1].now - calls[j].now);
  }

  lemma FullNow(s: Settings, calls: seq<Call>, rule: string, j: nat)
    requires j < |calls| && AvailAt(s, calls, rule, j) == s.burst
    ensures FullAt(s, calls, rule, j, j)
  {
    assert Gain(s, 0) == 0.0;
  }

  lemma {:induction false} LastFull(s: Settings, calls: seq<Call>, start: int, rule: string, j: nat) returns (k: nat)
    requires Sane(s) && Clocked(calls, start) && s.rate > 0.0 && rule != "" && j < |calls|
    ensures k <= j && FullAt(s, calls, rule, k, j)
  {
    if j == 0 {
      assert calls[..0] == [];
      FullNow(s, calls, rule, 0);
      return 0;
    }
    k := LastFull(s, calls, start, rule, j - 1);
    FullNext(s, calls, start, rule, k, j - 1);
    if AvailAt(s, calls, rule, j) == s.burst {
      FullNow(s, calls, rule, j);
      k := j;
    }
  }

  /** No stretch up to a call has emitted more than was covered, less what is left. */
  lemma StretchCovered(s: Settings, calls: seq<Call>, start: int, rule: string, k: nat, j: nat)
    requires Sane(s) && Clocked(calls, start) && s.rate > 0.0 && rule != "" && k <= j < |calls|
    ensures Emitted(s, FRESH, calls, rule, k, j) as real + AvailAt(s, calls, rule, j)
         <= s.burst + Gain(s, calls[j].now - calls[k].now)
  {
    BudgetBefore(s, FRESH, calls, start, rule, k, j);
  }

  /** The same in tokens. */
  predicate TokenSince(s: Settings, calls: seq<Call>, k: nat, j: nat)
    requires k <= j < |calls|
  {
    Emitted(s, FRESH, calls, calls[j].rule, k, j) as real + 1.0 <= s.burst + Gain(s, calls[j].now - calls[k].now)
  }

  lemma CoveredInTokens(s: Settings, emitted: nat, elapsed: int)
    ensures Covered(s, emitted, elapsed) <==> emitted as real + 1.0 <= s.burst + Gain(s, elapsed)
  {
    assert (emitted + 1) as real == emitted as real + 1.0;
    InNanos(s, emitted as real + 1.0, elapsed);
  }

  lemma SinceInTokens(s: Settings, calls: seq<Call>, k: nat, j: nat)
    requires k <= j < |calls|
    ensures CoveredSince(s, calls, k, j) <==> TokenSince(s, calls, k, j)
  {
    CoveredInTokens(s, Emitted(s, FRESH, calls, calls[j].rule, k, j), calls[j].now - calls[k].now);
  }

  /** There is a token just when every stretch leaves one. */
  lemma TokenIff(s: Settings, calls: seq<Call>, start: int, j: nat)
    requires Sane(s) && Clocked(calls, start) && s.rate > 0.0 && j < |calls| && calls[j].rule != ""
    ensures AvailAt(s, calls, calls[j].rule, j) >= 1.0 <==> forall k :: 0 <= k <= j ==> TokenSince(s, calls, k, j)
  {
    forall k | 0 <= k <= j
      ensures AvailAt(s, calls, calls[j].rule, j) >= 1.0 ==> TokenSince(s, calls, k, j)
    {
      StretchCovered(s, calls, start, calls[j].rule, k, j);
    }
    var k := LastFull(s, calls, start, calls[j].rule, j);
    assert TokenSince(s, calls, k, j) ==> AvailAt(s, calls, calls[j].rule, j) >= 1.0;
  }

  /** The token bucket, exactly: a call of a limited rule that is off cooldown is allowed just when,
      counted back to every earlier call, the rule's emits and this one are covered by the burst and
      the rate times the nanoseconds passed. */
  lemma RateLimitedIff(s: Settings, calls: seq<Call>, start: int, j: nat)
    requires Sane(s) && Clocked(calls, start) && j < |calls|
    requires s.rate > 0.0 && calls[j].rule != "" && AnswerTo(s, calls, j) != CooldownHit
    ensures AnswerTo(s, calls, j) == Allowed <==> forall k :: 0 <= k <= j ==> CoveredSince(s, calls, k, j)
  {
    TokenIff(s, calls, start, j);
    forall k | 0 <= k <= j
      ensures CoveredSince(s, calls, k, j) <==> TokenSince(s, calls, k, j)
    {
      SinceInTokens(s, calls, k, j);
    }
    assert AnswerTo(s, calls, j) == Allowed <==> AvailAt(s, calls, calls[j].rule, j) >= 1.0;
  }

  /** All answers of all runs: held back by the cooldown, then by the rate, otherwise allowed. */
  lemma AnswerDecided(s: Settings, calls: seq<Call>, start: int, j: nat)
    requires Sane(s) && Clocked(calls, start) && j < |calls|
    ensures AnswerTo(s, calls, j) ==
            if exists i :: 0 <= i < j && HoldsBack(s, calls, i, j) then CooldownHit
            else if s.rate > 0.0 && calls[j].rule != "" && exists k :: 0 <= k <= j && !CoveredSince(s, calls, k, j)
            then RateLimited
            else Allowed
  {
    CooldownIff(s, calls, start, j);
    if AnswerTo(s, calls, j) != CooldownHit && s.rate > 0.0 && calls[j].rule != "" {
      RateLimitedIff(s, calls, start, j);
    }
  }
}
