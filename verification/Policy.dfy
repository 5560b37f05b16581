/** Policy validation and evaluation (internal/policy/policy.go).  Whether a matcher matches and
    whether a time window is open are left to the context. */
module Policy {
  import opened Wire
  import opened Text
  import opened Seqs

  datatype Match = Match(pattern: string)

  datatype Window = Window(start: string, end: string)

  datatype Rule = Rule(
    id: string,
    enabled: Option<bool>,
    category: string,
    severity: string,
    decision: string,
    action: string,
    match_: Match,
    window: Option<Window>,
    whitelist: seq<Match>,
    priority: int,
    effect: seq<string>)

  /** The moment, subject and object an evaluation is for. */
  datatype Context = Context(matches: Match -> bool, inWindow: Option<Window> -> bool)

  const DEFAULT_PRIORITY: int := 100
  const MAX_PRIORITY: int := 1000

  function EffectivePriority(r: Rule): int {
    if r.priority == 0 then DEFAULT_PRIORITY else r.priority
  }

  function EffectiveEffect(r: Rule): seq<string> {
    if r.effect == [] then ["audit", "response"] else r.effect
  }

  predicate HasEffect(r: Rule, name: string) {
    name in EffectiveEffect(r)
  }

  // ---------------------------------------------------------------- the stable sort

  /** Rule `i` comes before rule `j`: lower priority value, or the same and listed earlier. */
  predicate Before(rules: seq<Rule>, i: nat, j: nat)
    requires i < |rules| && j < |rules|
  {
    EffectivePriority(rules[i]) < EffectivePriority(rules[j]) ||
    (EffectivePriority(rules[i]) == EffectivePriority(rules[j]) && i < j)
  }

  /** The first position whose rule has a larger priority value than `r`. */
  function Slot(sorted: seq<Rule>, r: Rule): (k: nat)
    ensures k <= |sorted|
    ensures forall i :: 0 <= i < k ==> EffectivePriority(sorted[i]) <= EffectivePriority(r)
    ensures k < |sorted| ==> EffectivePriority(sorted[k]) > EffectivePriority(r)
  {
    if sorted == [] || EffectivePriority(sorted[0]) > EffectivePriority(r) then 0 else 1 + Slot(sorted[1..], r)
  }

  /** The rules in evaluation order. */
  function Ordered(rules: seq<Rule>): (sorted: seq<Rule>)
    ensures |sorted| == |rules|
  {
    if rules == [] then [] else
    var front, r := Ordered(rules[..|rules| - 1]), rules[|rules| - 1];
    InsertAt(front, Slot(front, r), r)
  }

  /** The positions the ordered rules came from. */
  ghost function Order(rules: seq<Rule>): (order: seq<nat>)
    ensures |order| == |rules|
  {
    if rules == [] then [] else
    var n := |rules| - 1;
    InsertAt(Order(rules[..n]), Slot(Ordered(rules[..n]), rules[n]), n)
  }

  ghost predicate IsOrder(rules: seq<Rule>, order: seq<nat>) {
    && (forall k :: 0 <= k < |order| ==> order[k] < |rules|)
    && (forall k, l :: 0 <= k < l < |order| ==> Before(rules, order[k], order[l]))
  }

  ghost predicate Occurs(order: seq<nat>, i: int) {
    exists m :: 0 <= m < |order| && order[m] == i
  }

  ghost predicate Covers(rules: seq<Rule>, order: seq<nat>) {
    forall i :: 0 <= i < |rules| ==> Occurs(order, i)
  }

  ghost predicate Picks(rules: seq<Rule>, order: seq<nat>, picked: seq<Rule>) {
    && |picked| == |order|
    && (forall k :: 0 <= k < |order| ==> order[k] < |rules| && picked[k] == rules[order[k]])
  }

  /** The sort is the one permutation that orders rules by (effective priority, position). */
  lemma {:induction false} OrderMeaning(rules: seq<Rule>)
    ensures IsOrder(rules, Order(rules)) && Picks(rules, Order(rules), Ordered(rules)) && Covers(rules, Order(rules))
  {
    if rules != [] {
      var n := |rules| - 1;
      var front, order, sorted := rules[..n], Order(rules[..n]), Ordered(rules[..n]);
      var k := Slot(sorted, rules[n]);
      OrderMeaning(front);
      InsertCovers(rules, order, k);
      InsertPicks(rules, order, sorted, k);
      InsertIsOrder(rules, order, sorted, k);
    }
  }

  lemma InsertIsOrder(rules: seq<Rule>, order: seq<nat>, sorted: seq<Rule>, k: nat)
    requires rules != [] && k == Slot(sorted, rules[|rules| - 1])
    requires IsOrder(rules[..|rules| - 1], order) && Picks(rules[..|rules| - 1], order, sorted)
    ensures IsOrder(rules, InsertAt(order, k, |rules| - 1))
  {
    var order' := InsertAt(order, k, |rules| - 1);
    forall m | 0 <= m < |order'|
      ensures order'[m] < |rules|
    {
      InsertedAt(order, k, |rules| - 1, m);
    }
    forall a, b | 0 <= a < b < |order'|
      ensures Before(rules, order'[a], order'[b])
    {
      InsertedBefore(rules, order, sorted, k, a, b);
    }
  }

  lemma InsertCovers(rules: seq<Rule>, order: seq<nat>, k: nat)
    requires rules != [] && k <= |order| && Covers(rules[..|rules| - 1], order)
    ensures Covers(rules, InsertAt(order, k, |rules| - 1))
  {
    var order' := InsertAt(order, k, |rules| - 1);
    forall i | 0 <= i < |rules|
      ensures Occurs(order', i)
    {
      if i == |rules| - 1 {
        InsertedAt(order, k, |rules| - 1, k);
        assert order'[k] == i;
      } else {
        assert Occurs(order, i);
        var m :| 0 <= m < |order| && order[m] == i;
        var l := if m < k then m else m + 1;
        InsertedAt(order, k, |rules| - 1, l);
        assert order'[l] == i;
      }
    }
  }

  lemma InsertPicks(rules: seq<Rule>, order: seq<nat>, sorted: seq<Rule>, k: nat)
    requires rules != [] && k <= |order| && Picks(rules[..|rules| - 1], order, sorted)
    ensures Picks(rules, InsertAt(order, k, |rules| - 1), InsertAt(sorted, k, rules[|rules| - 1]))
  {
    var n := |rules| - 1;
    var order', sorted' := InsertAt(order, k, n), InsertAt(sorted, k, rules[n]);
    forall m | 0 <= m < |order'|
      ensures order'[m] < |rules| && sorted'[m] == rules[order'[m]]
    {
      InsertedAt(order, k, n, m);
      InsertedAt(sorted, k, rules[n], m);
    }
  }

  lemma InsertedBefore(rules: seq<Rule>, order: seq<nat>, sorted: seq<Rule>, k: nat, a: nat, b: nat)
    requires rules != [] && k == Slot(sorted, rules[|rules| - 1]) && a < b <= |order|
    requires IsOrder(rules[..|rules| - 1], order) && Picks(rules[..|rules| - 1], order, sorted)
    ensures var order' := InsertAt(order, k, |rules| - 1);
            order'[a] < |rules| && order'[b] < |rules| && Before(rules, order'[a], order'[b])
  {
    var n := |rules| - 1;
    InsertedAt(order, k, n, a);
    InsertedAt(order, k, n, b);
    if a == k {
      SlotSplits(rules, order, sorted, k, b - 1);
    } else if b == k {
      SlotSplits(rules, order, sorted, k, a);
    } else {
      assert Before(rules[..n], order[if a < k then a else a - 1], order[if b < k then b else b - 1]);
    }
  }

  /** The new rule goes after what is before its slot and before what is after it. */
  lemma SlotSplits(rules: seq<Rule>, order: seq<nat>, sorted: seq<Rule>, k: nat, m: nat)
    requires rules != [] && k == Slot(sorted, rules[|rules| - 1]) && m < |order|
    requires IsOrder(rules[..|rules| - 1], order) && Picks(rules[..|rules| - 1], order, sorted)
    ensures order[m] < |rules| - 1
    ensures if m < k then Before(rules, order[m], |rules| - 1) else Before(rules, |rules| - 1, order[m])
  {
    assert sorted[m] == rules[order[m]];
    if m > k {
      assert sorted[k] == rules[order[k]];
      assert Before(rules[..|rules| - 1], order[k], order[m]);
    }
  }

  // ---------------------------------------------------------------- evaluation

  predicate Applies(c: Context, r: Rule) {
    r.enabled != Some(false) && c.inWindow(r.window) && c.matches(r.match_)
  }

  predicate Whitelisted(c: Context, r: Rule) {
    exists i :: 0 <= i < |r.whitelist| && c.matches(r.whitelist[i])
  }

  /** The rule as reported: its own whitelist turns it into an allow. */
  function Candidate(c: Context, r: Rule): Rule {
    if Whitelisted(c, r) then r.(decision := "allow", action := "none") else r
  }

  function Hits(c: Context, rules: seq<Rule>): seq<Rule> {
    if rules == [] then [] else
    Hits(c, rules[..|rules| - 1]) + if Applies(c, rules[|rules| - 1]) then [Candidate(c, rules[|rules| - 1])] else []
  }

  method EvaluateAll(c: Context, rules: seq<Rule>) returns (out: seq<Rule>)
    ensures out == Hits(c, Ordered(rules))
  {
    var ordered := Ordered(rules);
    out := [];
    for n := 0 to |ordered|
      invariant out == Hits(c, ordered[..n])
    {
      assert ordered[..n + 1][..n] == ordered[..n];
      var r := ordered[n];
      if r.enabled.Some? && !r.enabled.value {
        continue;
      }
      if !c.inWindow(r.window) {
        continue;
      }
      if !c.matches(r.match_) {
        continue;
      }
      var candidate := r;
      for i := 0 to |r.whitelist|
        invariant candidate == r && forall j :: 0 <= j < i ==> !c.matches(r.whitelist[j])
      {
        if c.matches(r.whitelist[i]) {
          candidate := r.(decision := "allow", action := "none");
          break;
        }
      }
      assert candidate == Candidate(c, r);
      out := out + [candidate];
    }
    assert ordered[..|ordered|] == ordered;
  }

  predicate Responds(r: Rule) {
    HasEffect(r, "response") && r.decision != "allow" && r.action != "none"
  }

  function FirstResponse(hits: seq<Rule>): Option<Rule> {
    if hits == [] then None
    else if FirstResponse(hits[..|hits| - 1]).Some? then FirstResponse(hits[..|hits| - 1])
    else if Responds(hits[|hits| - 1]) then Some(hits[|hits| - 1]) else None
  }

  function Audits(hits: seq<Rule>): seq<Rule> {
    if hits == [] then [] else
    Audits(hits[..|hits| - 1]) + if HasEffect(hits[|hits| - 1], "audit") then [hits[|hits| - 1]] else []
  }

  method AggregatedDecision(hits: seq<Rule>) returns (response: Option<Rule>, audit: seq<Rule>)
    ensures response == FirstResponse(hits) && audit == Audits(hits)
  {
    response, audit := None, [];
    for n := 0 to |hits|
      invariant response == FirstResponse(hits[..n]) && audit == Audits(hits[..n])
    {
      assert hits[..n + 1][..n] == hits[..n];
      if HasEffect(hits[n], "audit") {
        audit := audit + [hits[n]];
      }
      if response.None? && HasEffect(hits[n], "response") && hits[n].decision != "allow" && hits[n].action != "none" {
        response := Some(hits[n]);
      }
    }
    assert hits[..|hits|] == hits;
  }

  // ---------------------------------------------------------------- what an evaluation decides

  /** A rule that may drive the response. */
  predicate Eligible(c: Context, r: Rule) {
    Applies(c, r) && !Whitelisted(c, r) && Responds(r)
  }

  lemma CandidateEligible(c: Context, r: Rule)
    requires Applies(c, r)
    ensures Responds(Candidate(c, r)) <==> Eligible(c, r)
    ensures Eligible(c, r) ==> Candidate(c, r) == r
  {
  }

  ghost function EligibleIn(c: Context): Rule -> bool {
    r => Eligible(c, r)
  }

  /** `k` is the first rule with `ok`, and its rule the response; or there is neither. */
  ghost predicate FirstAt(ok: Rule -> bool, rules: seq<Rule>, response: Option<Rule>, k: nat) {
    if response.None? then forall i :: 0 <= i < |rules| ==> !ok(rules[i])
    else && k < |rules| && ok(rules[k]) && response.value == rules[k]
         && forall i :: 0 <= i < k ==> !ok(rules[i])
  }

  lemma FirstAtSnoc(ok: Rule -> bool, rules: seq<Rule>, before: Option<Rule>, k: nat)
    requires rules != [] && FirstAt(ok, rules[..|rules| - 1], before, k)
    ensures var r := rules[|rules| - 1];
            FirstAt(ok, rules, if before.Some? then before else if ok(r) then Some(r) else None,
                    if before.Some? then k else |rules| - 1)
  {
    var front := rules[..|rules| - 1];
    assert forall i :: 0 <= i < |front| ==> front[i] == rules[i];
  }

  lemma FirstResponseSnoc(hits: seq<Rule>, r: Rule)
    ensures FirstResponse(hits + [r]) ==
            if FirstResponse(hits).Some? then FirstResponse(hits) else if Responds(r) then Some(r) else None
  {
    assert (hits + [r])[..|hits|] == hits;
  }

  /** The response to one more rule. */
  lemma ResponseSnoc(c: Context, rules: seq<Rule>)
    requires rules != []
    ensures var before, r := FirstResponse(Hits(c, rules[..|rules| - 1])), rules[|rules| - 1];
            FirstResponse(Hits(c, rules)) == if before.Some? then before else if Eligible(c, r) then Some(r) else None
  {
    var hits, r := Hits(c, rules[..|rules| - 1]), rules[|rules| - 1];
    if Applies(c, r) {
      CandidateEligible(c, r);
      FirstResponseSnoc(hits, Candidate(c, r));
    } else {
      assert Hits(c, rules) == hits;
    }
  }

  lemma {:induction false} FirstEligible(c: Context, rules: seq<Rule>) returns (k: nat)
    ensures FirstAt(EligibleIn(c), rules, FirstResponse(Hits(c, rules)), k)
  {
    k := 0;
    if rules != [] {
      var n := |rules| - 1;
      k := FirstEligible(c, rules[..n]);
      ResponseSnoc(c, rules);
      var before := FirstResponse(Hits(c, rules[..n]));
      FirstAtSnoc(EligibleIn(c), rules, before, k);
      assert EligibleIn(c)(rules[n]) == Eligible(c, rules[n]);
      if before.None? {
        k := n;
      }
    }
  }

  /** The response is the eligible rule of least effective priority, the earliest of those; there
      is none just when no rule is eligible. */
  lemma ResponseIsLeast(c: Context, rules: seq<Rule>) returns (i: nat)
    ensures FirstResponse(Hits(c, Ordered(rules))).None? <==> forall j :: 0 <= j < |rules| ==> !Eligible(c, rules[j])
    ensures FirstResponse(Hits(c, Ordered(rules))).Some? ==>
              && i < |rules| && Eligible(c, rules[i]) && FirstResponse(Hits(c, Ordered(rules))).value == rules[i]
              && forall j :: 0 <= j < |rules| && j != i && Eligible(c, rules[j]) ==> Before(rules, i, j)
  {
    OrderMeaning(rules);
    var k := FirstEligible(c, Ordered(rules));
    i := FirstInOrder(EligibleIn(c), rules, FirstResponse(Hits(c, Ordered(rules))), k);
    assert forall r :: EligibleIn(c)(r) == Eligible(c, r);
  }

  ghost function AppliesIn(c: Context): Rule -> bool {
    r => Applies(c, r)
  }

  /** Evaluate: the first of all hits. */
  function Evaluate(c: Context, rules: seq<Rule>): Option<Rule> {
    var hits := Hits(c, Ordered(rules));
    if hits == [] then None else Some(hits[0])
  }

  lemma {:induction false} FirstHit(c: Context, rules: seq<Rule>) returns (first: Option<Rule>, k: nat)
    ensures FirstAt(AppliesIn(c), rules, first, k)
    ensures if first.None? then Hits(c, rules) == []
            else Hits(c, rules) != [] && Hits(c, rules)[0] == Candidate(c, first.value)
  {
    first, k := None, 0;
    if rules != [] {
      var n := |rules| - 1;
      first, k := FirstHit(c, rules[..n]);
      FirstAtSnoc(AppliesIn(c), rules, first, k);
      assert AppliesIn(c)(rules[n]) == Applies(c, rules[n]);
      if first.None? {
        k := n;
        if Applies(c, rules[n]) {
          first := Some(rules[n]);
        }
      }
    }
  }

  /** A single evaluation reports the applicable rule of least effective priority, the earliest of
      those, turned into an allow if its whitelist matches. */
  lemma EvaluateIsLeast(c: Context, rules: seq<Rule>) returns (i: nat)
    ensures Evaluate(c, rules).None? <==> forall j :: 0 <= j < |rules| ==> !Applies(c, rules[j])
    ensures Evaluate(c, rules).Some? ==>
              && i < |rules| && Applies(c, rules[i]) && Evaluate(c, rules).value == Candidate(c, rules[i])
              && forall j :: 0 <= j < |rules| && j != i && Applies(c, rules[j]) ==> Before(rules, i, j)
  {
    OrderMeaning(rules);
    var first, k := FirstHit(c, Ordered(rules));
    i := FirstInOrder(AppliesIn(c), rules, first, k);
    assert forall r :: AppliesIn(c)(r) == Applies(c, r);
  }

  /** The first rule with `ok` in evaluation order is the least one with `ok`. */
  lemma FirstInOrder(ok: Rule -> bool, rules: seq<Rule>, first: Option<Rule>, k: nat) returns (i: nat)
    requires IsOrder(rules, Order(rules)) && Picks(rules, Order(rules), Ordered(rules)) && Covers(rules, Order(rules))
    requires FirstAt(ok, Ordered(rules), first, k)
    ensures first.None? <==> forall j :: 0 <= j < |rules| ==> !ok(rules[j])
    ensures first.Some? ==>
              && i < |rules| && ok(rules[i]) && first.value == rules[i]
              && forall j :: 0 <= j < |rules| && j != i && ok(rules[j]) ==> Before(rules, i, j)
  {
    var sorted, order := Ordered(rules), Order(rules);
    i := if first.None? then 0 else order[k];
    forall j | 0 <= j < |rules| && ok(rules[j])
      ensures first.Some? && (j != i ==> Before(rules, i, j))
    {
      assert Occurs(order, j);
      var m :| 0 <= m < |order| && order[m] == j;
      assert sorted[m] == rules[j];
    }
  }

  // ---------------------------------------------------------------- in terms of the fields

  /** Enabled unless switched off, in its time window, and matching. */
  predicate InForce(c: Context, r: Rule) {
    (r.enabled.None? || r.enabled.value) && c.inWindow(r.window) && c.matches(r.match_)
  }

  /** A rule without effects has them all. */
  predicate Names(r: Rule, effect: string) {
    |r.effect| == 0 || exists i :: 0 <= i < |r.effect| && r.effect[i] == effect
  }

  /** In force, meant to respond, not whitelisted, and neither an allow nor without action. */
  predicate MayRespond(c: Context, r: Rule) {
    && InForce(c, r) && Names(r, "response") && r.decision != "allow" && r.action != "none"
    && forall i :: 0 <= i < |r.whitelist| ==> !c.matches(r.whitelist[i])
  }

  /** Rule `i` goes first: a smaller priority, 0 counting as 100, or the same and listed earlier. */
  predicate GoesFirst(rules: seq<Rule>, i: nat, j: nat)
    requires i < |rules| && j < |rules|
  {
    var a := if rules[i].priority == 0 then 100 else rules[i].priority;
    var b := if rules[j].priority == 0 then 100 else rules[j].priority;
    a < b || (a == b && i < j)
  }

  lemma FieldsMeaning(c: Context, rules: seq<Rule>, i: nat, j: nat)
    requires i < |rules| && j < |rules|
    ensures Applies(c, rules[i]) <==> InForce(c, rules[i])
    ensures HasEffect(rules[i], "response") <==> Names(rules[i], "response")
    ensures HasEffect(rules[i], "audit") <==> Names(rules[i], "audit")
    ensures Eligible(c, rules[i]) <==> MayRespond(c, rules[i])
    ensures Before(rules, i, j) <==> GoesFirst(rules, i, j)
  {
    var both := ["audit", "response"];
    assert both[0] == "audit" && both[1] == "response";
  }

  /** Who responds, from the fields of the rules alone: the rule that may and goes before all others
      that may; nobody just when no rule may. */
  lemma ResponseByFields(c: Context, rules: seq<Rule>) returns (i: nat)
    ensures var response := FirstResponse(Hits(c, Ordered(rules)));
            if response.None? then forall j :: 0 <= j < |rules| ==> !MayRespond(c, rules[j])
            else && i < |rules| && MayRespond(c, rules[i]) && response.value == rules[i]
                 && forall j :: 0 <= j < |rules| && j != i && MayRespond(c, rules[j]) ==> GoesFirst(rules, i, j)
  {
    i := ResponseIsLeast(c, rules);
    forall j | 0 <= j < |rules|
      ensures Eligible(c, rules[j]) <==> MayRespond(c, rules[j])
      ensures i < |rules| ==> (Before(rules, i, j) <==> GoesFirst(rules, i, j))
    {
      FieldsMeaning(c, rules, j, j);
      if i < |rules| {
        FieldsMeaning(c, rules, i, j);
      }
    }
  }

  /** What a single evaluation reports, likewise: the rule in force that goes first, as it stands, or
      as an allow without action if its whitelist matches. */
  lemma EvaluateByFields(c: Context, rules: seq<Rule>) returns (i: nat)
    ensures if Evaluate(c, rules).None? then forall j :: 0 <= j < |rules| ==> !InForce(c, rules[j])
            else && i < |rules| && InForce(c, rules[i])
                 && Evaluate(c, rules).value ==
                    (if exists k :: 0 <= k < |rules[i].whitelist| && c.matches(rules[i].whitelist[k])
                     then rules[i].(decision := "allow", action := "none") else rules[i])
                 && forall j :: 0 <= j < |rules| && j != i && InForce(c, rules[j]) ==> GoesFirst(rules, i, j)
  {
    i := EvaluateIsLeast(c, rules);
    forall j | 0 <= j < |rules|
      ensures Applies(c, rules[j]) <==> InForce(c, rules[j])
      ensures i < |rules| ==> (Before(rules, i, j) <==> GoesFirst(rules, i, j))
    {
      FieldsMeaning(c, rules, j, j);
      if i < |rules| {
        FieldsMeaning(c, rules, i, j);
      }
    }
  }

  ghost predicate AuditsAre(c: Context, rules: seq<Rule>, audit: seq<Rule>, at: seq<nat>) {
    && |audit| == |at|
    && (forall k :: 0 <= k < |at| ==> at[k] < |rules| && Applies(c, rules[at[k]]) && HasEffect(rules[at[k]], "audit")
                                      && audit[k] == Candidate(c, rules[at[k]]))
    && (forall k, l :: 0 <= k < l < |at| ==> at[k] < at[l])
    && (forall i :: 0 <= i < |rules| && Applies(c, rules[i]) && HasEffect(rules[i], "audit") ==> Occurs(at, i))
  }

  lemma {:induction false} AuditPositions(c: Context, rules: seq<Rule>) returns (at: seq<nat>)
    ensures AuditsAre(c, rules, Audits(Hits(c, rules)), at)
  {
    at := [];
    if rules != [] {
      var n := |rules| - 1;
      at := AuditPositions(c, rules[..n]);
      var hits, r := Hits(c, rules[..n]), rules[n];
      if Applies(c, r) {
        assert Hits(c, rules)[..|hits|] == hits;
        if HasEffect(r, "audit") {
          AuditSnoc(c, rules, Audits(hits), at);
          at := at + [n];
        }
      } else {
        assert Hits(c, rules) == hits;
      }
    }
  }

  lemma AuditSnoc(c: Context, rules: seq<Rule>, audit: seq<Rule>, at: seq<nat>)
    requires rules != [] && AuditsAre(c, rules[..|rules| - 1], audit, at)
    requires Applies(c, rules[|rules| - 1]) && HasEffect(rules[|rules| - 1], "audit")
    ensures AuditsAre(c, rules, audit + [Candidate(c, rules[|rules| - 1])], at + [|rules| - 1])
  {
    var n := |rules| - 1;
    var at' := at + [n];
    assert at'[|at|] == n;
    forall i | 0 <= i < n && Applies(c, rules[i]) && HasEffect(rules[i], "audit")
      ensures Occurs(at', i)
    {
      assert rules[..n][i] == rules[i];
      assert Occurs(at, i);
      var m :| 0 <= m < |at| && at[m] == i;
      assert at'[m] == i;
    }
  }

  /** `audit` lists the candidates of the rules at `from`: all applicable ones with the audit
      effect, by effective priority and then by position. */
  ghost predicate AuditsFrom(c: Context, rules: seq<Rule>, audit: seq<Rule>, from: seq<nat>) {
    && |audit| == |from|
    && (forall k :: 0 <= k < |from| ==>
          && from[k] < |rules| && Applies(c, rules[from[k]]) && HasEffect(rules[from[k]], "audit")
          && audit[k] == Candidate(c, rules[from[k]]))
    && (forall k, l :: 0 <= k < l < |from| ==> Before(rules, from[k], from[l]))
    && (forall i :: 0 <= i < |rules| && Applies(c, rules[i]) && HasEffect(rules[i], "audit") ==> Occurs(from, i))
  }

  lemma AuditOccurs(c: Context, rules: seq<Rule>, order: seq<nat>, sorted: seq<Rule>, audit: seq<Rule>, at: seq<nat>,
                    from: seq<nat>, i: nat)
    requires Picks(rules, order, sorted) && Covers(rules, order) && AuditsAre(c, sorted, audit, at)
    requires |from| == |at| && forall k :: 0 <= k < |at| ==> from[k] == order[at[k]]
    requires i < |rules| && Applies(c, rules[i]) && HasEffect(rules[i], "audit")
    ensures Occurs(from, i)
  {
    assert Occurs(order, i);
    var m :| 0 <= m < |order| && order[m] == i;
    assert sorted[m] == rules[i];
    assert Occurs(at, m);
    var k :| 0 <= k < |at| && at[k] == m;
    assert from[k] == i;
  }

  lemma AuditOrdered(c: Context, rules: seq<Rule>, order: seq<nat>, sorted: seq<Rule>, audit: seq<Rule>, at: seq<nat>,
                     from: seq<nat>)
    requires IsOrder(rules, order) && Picks(rules, order, sorted) && Covers(rules, order)
             && AuditsAre(c, sorted, audit, at)
    requires |from| == |at| && forall k :: 0 <= k < |at| ==> from[k] == order[at[k]]
    ensures AuditsFrom(c, rules, audit, from)
  {
    forall k | 0 <= k < |from|
      ensures from[k] < |rules| && rules[from[k]] == sorted[at[k]]
    {
    }
    forall i | 0 <= i < |rules| && Applies(c, rules[i]) && HasEffect(rules[i], "audit")
      ensures Occurs(from, i)
    {
      AuditOccurs(c, rules, order, sorted, audit, at, from, i);
    }
  }

  /** The audit list holds every applicable rule with the audit effect (whitelisted ones as
      allows), and nothing else, in evaluation order. */
  lemma AuditIsComplete(c: Context, rules: seq<Rule>) returns (from: seq<nat>)
    ensures AuditsFrom(c, rules, Audits(Hits(c, Ordered(rules))), from)
  {
    var sorted, order := Ordered(rules), Order(rules);
    OrderMeaning(rules);
    var at := AuditPositions(c, sorted);
    from := seq(|at|, k requires 0 <= k < |at| => order[at[k]]);
    AuditOrdered(c, rules, order, sorted, Audits(Hits(c, sorted)), at, from);
  }

  // ---------------------------------------------------------------- only the order within a class matters

  /** The rules of one effective priority, in order. */
  function Class(rules: seq<Rule>, v: int): seq<Rule> {
    if rules == [] then [] else
    (if EffectivePriority(rules[0]) == v then [rules[0]] else []) + Class(rules[1..], v)
  }

  predicate Ascending(rules: seq<Rule>) {
    forall i, j :: 0 <= i < j < |rules| ==> EffectivePriority(rules[i]) <= EffectivePriority(rules[j])
  }

  lemma {:induction false} ClassSplit(a: seq<Rule>, b: seq<Rule>, v: int)
    ensures Class(a + b, v) == Class(a, v) + Class(b, v)
  {
    if a == [] {
      assert a + b == b;
    } else {
      assert (a + b)[1..] == a[1..] + b;
      ClassSplit(a[1..], b, v);
      Assoc(if EffectivePriority(a[0]) == v then [a[0]] else [], Class(a[1..], v), Class(b, v));
    }
  }

  lemma {:induction false} ClassEmpty(rules: seq<Rule>, v: int)
    requires forall i :: 0 <= i < |rules| ==> EffectivePriority(rules[i]) != v
    ensures Class(rules, v) == []
  {
    if rules != [] {
      ClassEmpty(rules[1..], v);
    }
  }

  lemma AscendingInsert(sorted: seq<Rule>, r: Rule)
    requires Ascending(sorted)
    ensures Ascending(InsertAt(sorted, Slot(sorted, r), r))
  {
    var k := Slot(sorted, r);
    var longer := InsertAt(sorted, k, r);
    forall i, j | 0 <= i < j < |longer|
      ensures EffectivePriority(longer[i]) <= EffectivePriority(longer[j])
    {
      InsertedAt(sorted, k, r, i);
      InsertedAt(sorted, k, r, j);
    }
  }

  lemma ClassInsert(sorted: seq<Rule>, r: Rule, v: int)
    requires Ascending(sorted)
    ensures Class(InsertAt(sorted, Slot(sorted, r), r), v) == Class(sorted, v) + Class([r], v)
  {
    var k := Slot(sorted, r);
    var low, high := Class(sorted[..k], v), Class(sorted[k..], v);
    ClassThree(sorted, k, r, v);
    if EffectivePriority(r) == v {
      HighDiffers(sorted, r, k);
      EmptyLast(low, Class([r], v), high);
    } else {
      ClassEmpty([r], v);
      EmptyMiddle(low, Class([r], v), high);
    }
  }

  lemma EmptyLast<T>(a: seq<T>, b: seq<T>, c: seq<T>)
    requires c == []
    ensures a + b + c == (a + c) + b
  {
  }

  lemma EmptyMiddle<T>(a: seq<T>, b: seq<T>, c: seq<T>)
    requires b == []
    ensures a + b + c == (a + c) + b
  {
  }

  lemma ClassThree(sorted: seq<Rule>, k: nat, r: Rule, v: int)
    requires k <= |sorted|
    ensures Class(sorted, v) == Class(sorted[..k], v) + Class(sorted[k..], v)
    ensures Class(InsertAt(sorted, k, r), v) == Class(sorted[..k], v) + Class([r], v) + Class(sorted[k..], v)
  {
    assert sorted == sorted[..k] + sorted[k..];
    ClassSplit(sorted[..k], sorted[k..], v);
    ClassSplit(sorted[..k] + [r], sorted[k..], v);
    ClassSplit(sorted[..k], [r], v);
  }

  /** No rule after the slot has the priority of the rule that goes there. */
  lemma HighDiffers(sorted: seq<Rule>, r: Rule, k: nat)
    requires Ascending(sorted) && k == Slot(sorted, r)
    ensures Class(sorted[k..], EffectivePriority(r)) == []
  {
    ClassEmpty(sorted[k..], EffectivePriority(r));
  }

  /** Sorting is stable: each class comes out as it went in. */
  lemma {:induction false} OrderedKeepsClasses(rules: seq<Rule>, v: int)
    ensures Ascending(Ordered(rules)) && Class(Ordered(rules), v) == Class(rules, v)
  {
    if rules != [] {
      var n := |rules| - 1;
      OrderedKeepsClasses(rules[..n], v);
      AscendingInsert(Ordered(rules[..n]), rules[n]);
      ClassInsert(Ordered(rules[..n]), rules[n], v);
      ClassSplit(rules[..n], [rules[n]], v);
      assert rules[..n] + [rules[n]] == rules;
    }
  }

  lemma {:induction false} ClassFirst(rules: seq<Rule>, v: int)
    requires Ascending(rules) && Class(rules, v) != []
    ensures rules != [] && EffectivePriority(rules[0]) <= v
    ensures EffectivePriority(rules[0]) == v ==> Class(rules, v)[0] == rules[0]
  {
    if EffectivePriority(rules[0]) > v {
      ClassEmpty(rules, v);
    }
  }

  lemma ClassNonEmpty(rules: seq<Rule>)
    requires rules != []
    ensures Class(rules, EffectivePriority(rules[0])) != []
  {
  }

  /** Two ascending lists with the same classes are the same list. */
  lemma {:induction false} ClassesDetermine(a: seq<Rule>, b: seq<Rule>)
    requires Ascending(a) && Ascending(b) && forall v :: Class(a, v) == Class(b, v)
    ensures a == b
  {
    if a == [] {
      if b != [] {
        ClassNonEmpty(b);
        assert false;
      }
    } else {
      var v := EffectivePriority(a[0]);
      assert Class(a, v) == Class(b, v);
      ClassFirst(b, v);
      var w := EffectivePriority(b[0]);
      assert Class(a, w) == Class(b, w);
      ClassFirst(a, w);
      forall u
        ensures Class(a[1..], u) == Class(b[1..], u)
      {
        assert Class(a, u) == Class(b, u);
        assert Class(a, u)[if u == v then 1 else 0..] == Class(b, u)[if u == v then 1 else 0..];
      }
      ClassesDetermine(a[1..], b[1..]);
    }
  }

  /** Policies that list each priority class in the same order evaluate alike in every context,
      however the classes are interleaved. */
  lemma OnlyClassOrderMatters(c: Context, a: seq<Rule>, b: seq<Rule>)
    requires forall v :: Class(a, v) == Class(b, v)
    ensures Hits(c, Ordered(a)) == Hits(c, Ordered(b))
  {
    forall v
      ensures Class(Ordered(a), v) == Class(Ordered(b), v)
    {
      OrderedKeepsClasses(a, v);
      OrderedKeepsClasses(b, v);
    }
    OrderedKeepsClasses(a, 0);
    OrderedKeepsClasses(b, 0);
    ClassesDetermine(Ordered(a), Ordered(b));
  }

  // ---------------------------------------------------------------- validation

  const BLOCK_ACTIONS := {"kill", "fix_permissions", "nft_block", "quarantine", "fanotify_deny", "kill_tree",
                          "network_isolate", "process_suspend"}

  /** The decision-action matrix. */
  predicate MatrixOk(r: Rule) {
    match r.decision
    case "allow" => r.action == "none"
    case "alert" => r.action == "none" || r.action == "log"
    case "block" => r.action in BLOCK_ACTIONS
    case _ => false
  }

  predicate WindowOk(clockOk: string -> bool, w: Option<Window>) {
    w.Some? ==>
      && clockOk(w.value.start) && clockOk(w.value.end)
      && !(w.value.start == "00:00" && w.value.end == "23:59") && w.value.start != w.value.end
  }

  predicate RuleOk(clockOk: string -> bool, r: Rule) {
    && !Blank(r.id)
    && r.category in {"process", "file", "network"}
    && MatrixOk(r)
    && WindowOk(clockOk, r.window)
    && 0 <= r.priority <= MAX_PRIORITY
    && forall i :: 0 <= i < |r.effect| ==> r.effect[i] in {"audit", "response"}
  }

  /** The per-rule loop of Validate; `clockOk` says which texts parse as a time of day. */
  method Validate(rules: seq<Rule>, clockOk: string -> bool) returns (ok: bool)
    ensures ok <==>
            && (forall i :: 0 <= i < |rules| ==> RuleOk(clockOk, rules[i]))
            && (forall i, j :: 0 <= i < j < |rules| ==> rules[i].id != rules[j].id)
  {
    var seen: set<string> := {};
    for n := 0 to |rules|
      invariant forall i :: 0 <= i < n ==> RuleOk(clockOk, rules[i])
      invariant forall i, j :: 0 <= i < j < n ==> rules[i].id != rules[j].id
      invariant forall i :: 0 <= i < n ==> rules[i].id in seen
      invariant forall id :: id in seen ==> exists i :: 0 <= i < n && rules[i].id == id
    {
      var r := rules[n];
      if Blank(r.id) || r.id in seen {
        return false;
      }
      seen := seen + {r.id};
      if r.category !in {"process", "file", "network"} || !MatrixOk(r) || !WindowOk(clockOk, r.window) {
        return false;
      }
      if r.priority < 0 || r.priority > MAX_PRIORITY {
        return false;
      }
      if exists i :: 0 <= i < |r.effect| && r.effect[i] !in {"audit", "response"} {
        return false;
      }
    }
    ok := true;
  }

  /** Under a validated policy the response is a block, or an alert that logs. */
  lemma ValidResponse(c: Context, rules: seq<Rule>, clockOk: string -> bool)
    requires forall i :: 0 <= i < |rules| ==> RuleOk(clockOk, rules[i])
    requires FirstResponse(Hits(c, Ordered(rules))).Some?
    ensures var r := FirstResponse(Hits(c, Ordered(rules))).value;
            (r.decision == "block" && r.action in BLOCK_ACTIONS) || (r.decision == "alert" && r.action == "log")
  {
    var i := ResponseIsLeast(c, rules);
    assert RuleOk(clockOk, rules[i]);
  }
}
