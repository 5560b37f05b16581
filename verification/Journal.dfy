/** What an honest writer produced, and what the verifier says about any part of it that
    survives. */
module Journal {
  import opened Wire
  import opened Chain
  import opened VerifyLog

  /** One write: the event as sealed (or as given, when chaining is off) and its line.  A chained
      entry was sealed onto the entry at position `parent`, or onto nothing at -1; a writer that
      comes back at an older head makes a second branch there. */
  datatype Entry = Entry(chained: bool, event: Event, raw: string, parent: int)

  predicate Grown(js: seq<Entry>, i: nat)
    requires i < |js|
  {
    js[i].chained ==> IsNode(js, js[i].parent) && js[i].parent < i
  }

  /** Every chained entry hangs on an earlier chained entry or on nothing. */
  predicate Tree(js: seq<Entry>) {
    forall i :: 0 <= i < |js| ==> Grown(js, i)
  }

  predicate IsNode(js: seq<Entry>, j: int) {
    j == -1 || (0 <= j < |js| && js[j].chained)
  }

  /** The last chained entry before position `n`; -1 when there is none. */
  function LastChained(js: seq<Entry>, n: nat): (j: int)
    requires n <= |js|
    ensures -1 <= j < n
    ensures j >= 0 ==> js[j].chained
    ensures forall i :: j < i < n ==> !js[i].chained
  {
    if n == 0 then -1 else if js[n - 1].chained then n - 1 else LastChained(js, n - 1)
  }

  function HashAt(js: seq<Entry>, j: int): string
    requires IsNode(js, j)
  {
    if j == -1 then "" else js[j].event.hash
  }

  /** The hash a chained entry was sealed at. */
  function SealedOnto(js: seq<Entry>, i: nat): string
    requires Tree(js) && i < |js| && js[i].chained
  {
    assert Grown(js, i);
    HashAt(js, js[i].parent)
  }

  /** Every chained entry was sealed onto its parent. */
  ghost predicate Honest(p: Primitives, key: string, js: seq<Entry>) {
    Tree(js) && forall i :: 0 <= i < |js| ==> HonestAt(p, key, js, i)
  }

  ghost predicate HonestAt(p: Primitives, key: string, js: seq<Entry>, i: nat)
    requires Tree(js) && i < |js|
  {
    if js[i].chained then SealedAt(p, key, SealedOnto(js, i), js[i].event, js[i].raw)
    else p.marshal(js[i].event) == Some(js[i].raw) && js[i].event.integrityVersion != INTEGRITY_VERSION
  }

  /** The payloads from the start of the chain to entry `j`. */
  function Lineage(p: Primitives, js: seq<Entry>, j: int): seq<string>
    requires Tree(js) && IsNode(js, j)
    decreases j
  {
    if j == -1 then [] else
    assert Grown(js, j);
    Lineage(p, js, js[j].parent) + [PayloadText(p, js[j].event)]
  }

  /** The texts the writer hashed. */
  ghost function WriterTexts(p: Primitives, js: seq<Entry>): set<string> {
    set i | 0 <= i < |js| && js[i].chained :: js[i].event.prevHash + PayloadText(p, js[i].event)
  }

  /** The texts the verifier hashes. */
  ghost function VerifierTexts(p: Primitives, lines: seq<string>): set<string> {
    set i | 0 <= i < |lines| && IsChain(p, lines[i]) :: VerifierText(p, lines, i)
  }

  function VerifierText(p: Primitives, lines: seq<string>, i: nat): string
    requires i < |lines| && IsChain(p, lines[i])
  {
    LastHash(p, lines[..i]) + PayloadText(p, At(p, lines[i]))
  }

  // ---------------------------------------------------------------- what survives

  /** A selection of positions of an `n`-entry journal, in order. */
  predicate Selection(keep: seq<nat>, n: nat) {
    && (forall k :: 0 <= k < |keep| ==> keep[k] < n)
    && (forall k, l :: 0 <= k < l < |keep| ==> keep[k] < keep[l])
  }

  function Lines(js: seq<Entry>, keep: seq<nat>): (lines: seq<string>)
    requires Selection(keep, |js|)
    ensures |lines| == |keep|
    ensures forall k :: 0 <= k < |keep| ==> lines[k] == js[keep[k]].raw
  {
    seq(|keep|, k requires 0 <= k < |keep| => js[keep[k]].raw)
  }

  /** The last chained entry among the first `k` survivors. */
  function KeptChained(js: seq<Entry>, keep: seq<nat>, k: nat): (j: int)
    requires Selection(keep, |js|) && k <= |keep|
    ensures IsNode(js, j)
    ensures j >= 0 ==> j in keep[..k]
  {
    if k == 0 then -1 else if js[keep[k - 1]].chained then keep[k - 1] else KeptChained(js, keep, k - 1)
  }

  /** What chained entry `keep[k]` was sealed onto is what the last chained survivor before it
      carries: the same payloads all the way back. */
  predicate Intact(p: Primitives, js: seq<Entry>, keep: seq<nat>, k: nat)
    requires Tree(js) && Selection(keep, |js|) && k < |keep| && js[keep[k]].chained
  {
    assert Grown(js, keep[k]);
    Lineage(p, js, KeptChained(js, keep, k)) == Lineage(p, js, js[keep[k]].parent)
  }

  lemma EntryDecodes(p: Primitives, key: string, js: seq<Entry>, i: nat)
    requires p.CodecLaw() && p.DigestLaw() && Honest(p, key, js) && i < |js|
    ensures p.unmarshal(js[i].raw).Some?
    ensures IsChain(p, js[i].raw) <==> js[i].chained
    ensures js[i].chained ==>
              var d := At(p, js[i].raw);
              && d.SameHeader(js[i].event) && Payload(p, d).Some? && Payload(p, js[i].event).Some?
              && (Canonical(p, js[i].event) <==> PayloadText(p, d) == PayloadText(p, js[i].event))
  {
    assert HonestAt(p, key, js, i);
    if js[i].chained {
      SealedDecodes(p, key, SealedOnto(js, i), js[i].event, js[i].raw);
    }
  }

  lemma LastHashSnoc(p: Primitives, lines: seq<string>, k: nat)
    requires k < |lines|
    ensures LastHash(p, lines[..k + 1]) ==
            if IsChain(p, lines[k]) then At(p, lines[k]).hash else LastHash(p, lines[..k])
  {
    assert lines[..k + 1][..k] == lines[..k];
  }

  /** The verifier's running hash is that of the last surviving chained entry. */
  lemma {:induction false} RunningHash(p: Primitives, key: string, js: seq<Entry>, keep: seq<nat>, k: nat)
    requires p.Lawful() && Honest(p, key, js) && Selection(keep, |js|) && k <= |keep|
    ensures LastHash(p, Lines(js, keep)[..k]) == HashAt(js, KeptChained(js, keep, k))
  {
    if k > 0 {
      RunningHash(p, key, js, keep, k - 1);
      LastHashSnoc(p, Lines(js, keep), k - 1);
      EntryDecodes(p, key, js, keep[k - 1]);
    }
  }

  lemma HashIsDigest(p: Primitives, key: string, js: seq<Entry>, j: int)
    requires p.DigestLaw() && Honest(p, key, js) && IsNode(js, j)
    ensures j >= 0 ==> HexDigest(HashAt(js, j))
  {
    if j >= 0 {
      assert HonestAt(p, key, js, j);
    }
  }

  /** One link back: two entries with one hash have one predecessor hash and one payload. */
  lemma SameHashSamePrev(p: Primitives, key: string, js: seq<Entry>, i: nat, j: nat, inputs: set<string>)
    requires p.Lawful() && Honest(p, key, js) && i < |js| && j < |js|
    requires js[i].chained && js[j].chained && js[i].event.hash == js[j].event.hash
    requires WriterTexts(p, js) <= inputs && !Collision(p, inputs)
    ensures SealedOnto(js, i) == SealedOnto(js, j)
    ensures PayloadText(p, js[i].event) == PayloadText(p, js[j].event)
  {
    assert HonestAt(p, key, js, i) && HonestAt(p, key, js, j);
    assert Grown(js, i) && Grown(js, j);
    var x, y := js[i].event, js[j].event;
    HashIsDigest(p, key, js, js[i].parent);
    HashIsDigest(p, key, js, js[j].parent);
    assert x.prevHash + PayloadText(p, x) in WriterTexts(p, js);
    assert y.prevHash + PayloadText(p, y) in WriterTexts(p, js);
    SplitUnique(x.prevHash, PayloadText(p, x), y.prevHash, PayloadText(p, y));
  }

  /** A hash tells the whole branch: two entries share one just when their payloads agree all the
      way back to the start, absent a collision. */
  lemma {:induction false} HashTellsLineage(p: Primitives, key: string, js: seq<Entry>, i: int, j: int,
                                            inputs: set<string>)
    requires p.Lawful() && Honest(p, key, js) && IsNode(js, i) && IsNode(js, j)
    requires WriterTexts(p, js) <= inputs && !Collision(p, inputs)
    ensures HashAt(js, i) == HashAt(js, j) <==> Lineage(p, js, i) == Lineage(p, js, j)
    decreases i + 1
  {
    HashIsDigest(p, key, js, i);
    HashIsDigest(p, key, js, j);
    if i >= 0 && j >= 0 {
      assert Grown(js, i) && Grown(js, j);
      assert HonestAt(p, key, js, i) && HonestAt(p, key, js, j);
      HashTellsLineage(p, key, js, js[i].parent, js[j].parent, inputs);
      if HashAt(js, i) == HashAt(js, j) {
        SameHashSamePrev(p, key, js, i, j, inputs);
      } else if Lineage(p, js, i) == Lineage(p, js, j) {
        SameLast(Lineage(p, js, js[i].parent), PayloadText(p, js[i].event),
                 Lineage(p, js, js[j].parent), PayloadText(p, js[j].event));
      }
    }
  }

  lemma SameLast<T>(a: seq<T>, x: T, b: seq<T>, y: T)
    requires a + [x] == b + [y]
    ensures a == b && x == y
  {
    assert (a + [x])[|a|] == x && (b + [y])[|b|] == y;
    assert (a + [x])[..|a|] == a && (b + [y])[..|b|] == b;
  }

  // ---------------------------------------------------------------- fault localisation

  function Kinds(issues: seq<Issue>): seq<IssueKind> {
    seq(|issues|, i requires 0 <= i < |issues| => issues[i].kind)
  }

  /** What a maintainer would want reported about the chain at survivor `k`: a missing predecessor
      breaks the link and with it the hash; content that does not re-encode spoils the hash alone. */
  function LinkBlame(p: Primitives, js: seq<Entry>, keep: seq<nat>, k: nat): seq<Issue>
    requires Tree(js) && Selection(keep, |js|) && k < |keep| && js[keep[k]].chained && IsChain(p, js[keep[k]].raw)
  {
    var x := js[keep[k]];
    var found := HashAt(js, KeptChained(js, keep, k));
    var mismatch := Issue(k + 1, x.event.seqNo, HashMismatch, p.sha(found + PayloadText(p, At(p, x.raw))),
                          x.event.hash);
    if !Intact(p, js, keep, k) then
      [Issue(k + 1, x.event.seqNo, PrevHashBreak, found, SealedOnto(js, keep[k])), mismatch]
    else if Canonical(p, x.event) then []
    else [mismatch]
  }

  /** The event carries the MAC that a holder of `key` expects; without a key nothing is expected. */
  predicate MacFits(p: Primitives, key: string, e: Event) {
    key == "" || p.mac(key, e.hash) == e.hmac
  }

  /** All that is to be reported about survivor `k` under key `vkey`. */
  function Blame(p: Primitives, vkey: string, js: seq<Entry>, keep: seq<nat>, k: nat): seq<Issue>
    requires Tree(js) && Selection(keep, |js|) && k < |keep|
  {
    var x := js[keep[k]];
    if !x.chained || !IsChain(p, x.raw) then [] else
    LinkBlame(p, js, keep, k) +
    if MacFits(p, vkey, x.event) then []
    else [Issue(k + 1, x.event.seqNo, HmacMismatch, p.mac(vkey, x.event.hash), x.event.hmac)]
  }

  /** Hashing a sealed payload after `found` instead of the head it was sealed at. */
  lemma DigestTells(p: Primitives, sealed: string, payload: string, found: string, seen: string, inputs: set<string>)
    requires sealed == "" || HexDigest(sealed)
    requires found == "" || HexDigest(found)
    requires OpensObject(payload) && OpensObject(seen)
    requires sealed + payload in inputs && found + seen in inputs && !Collision(p, inputs)
    ensures p.sha(found + seen) == p.sha(sealed + payload) <==> found == sealed && seen == payload
  {
    if p.sha(found + seen) == p.sha(sealed + payload) {
      assert found + seen == sealed + payload;
      SplitUnique(found, seen, sealed, payload);
    }
  }

  /** The running hash is the one the line was sealed at just when the branch behind it is whole. */
  lemma PredecessorTells(p: Primitives, key: string, js: seq<Entry>, keep: seq<nat>, k: nat, inputs: set<string>)
    requires p.Lawful() && Honest(p, key, js) && Selection(keep, |js|) && k < |keep| && js[keep[k]].chained
    requires WriterTexts(p, js) <= inputs && !Collision(p, inputs)
    ensures HashAt(js, KeptChained(js, keep, k)) == SealedOnto(js, keep[k]) <==> Intact(p, js, keep, k)
  {
    assert Grown(js, keep[k]);
    HashTellsLineage(p, key, js, KeptChained(js, keep, k), js[keep[k]].parent, inputs);
  }

  /** The recomputed hash fits just when the head and the re-encoded payload are those sealed. */
  lemma HashTells(p: Primitives, key: string, js: seq<Entry>, keep: seq<nat>, k: nat, inputs: set<string>)
    requires p.Lawful() && Honest(p, key, js) && Selection(keep, |js|) && k < |keep| && js[keep[k]].chained
    requires WriterTexts(p, js) <= inputs && !Collision(p, inputs)
    requires IsChain(p, js[keep[k]].raw)
    requires HashAt(js, KeptChained(js, keep, k)) + PayloadText(p, At(p, js[keep[k]].raw)) in inputs
    ensures var found, seen := HashAt(js, KeptChained(js, keep, k)), PayloadText(p, At(p, js[keep[k]].raw));
            p.sha(found + seen) == js[keep[k]].event.hash <==>
            found == SealedOnto(js, keep[k]) && Canonical(p, js[keep[k]].event)
  {
    var j := keep[k];
    var x := js[j].event;
    assert HonestAt(p, key, js, j);
    EntryDecodes(p, key, js, j);
    assert Grown(js, j);
    HashIsDigest(p, key, js, js[j].parent);
    HashIsDigest(p, key, js, KeptChained(js, keep, k));
    assert x.prevHash + PayloadText(p, x) in WriterTexts(p, js);
    DigestTells(p, SealedOnto(js, j), PayloadText(p, x),
                HashAt(js, KeptChained(js, keep, k)), PayloadText(p, At(p, js[j].raw)), inputs);
  }

  /** The kinds of issue a chain event draws, from the three comparisons. */
  lemma EventKinds(p: Primitives, key: string, prev: string, e: Event, line: nat)
    requires Payload(p, e).Some?
    ensures Kinds(EventIssues(p, key, prev, e, line)) ==
            (if e.prevHash != prev then [PrevHashBreak] else []) +
            (if p.sha(prev + PayloadText(p, e)) != e.hash then [HashMismatch] else []) +
            (if key != "" && p.mac(key, e.hash) != e.hmac then [HmacMismatch] else [])
  {
  }

  /** The issues of a chain event whose digest fits just when it follows the hash it names with the
      payload that was sealed. */
  lemma IssuesSpelledOut(p: Primitives, key: string, prev: string, e: Event, line: nat, canonical: bool)
    requires Payload(p, e).Some?
    requires p.sha(prev + PayloadText(p, e)) == e.hash <==> prev == e.prevHash && canonical
    ensures var mismatch := Issue(line, e.seqNo, HashMismatch, p.sha(prev + PayloadText(p, e)), e.hash);
            EventIssues(p, key, prev, e, line) ==
            (if prev != e.prevHash then [Issue(line, e.seqNo, PrevHashBreak, prev, e.prevHash), mismatch]
             else if canonical then [] else [mismatch]) +
            if MacFits(p, key, e) then [] else [Issue(line, e.seqNo, HmacMismatch, p.mac(key, e.hash), e.hmac)]
  {
  }

  lemma ChainLineFault(p: Primitives, key: string, vkey: string, js: seq<Entry>, keep: seq<nat>, k: nat,
                       inputs: set<string>)
    requires p.Lawful() && Honest(p, key, js) && Selection(keep, |js|) && k < |keep|
    requires js[keep[k]].chained
    requires WriterTexts(p, js) <= inputs && VerifierTexts(p, Lines(js, keep)) <= inputs && !Collision(p, inputs)
    ensures IssuesAt(p, vkey, Lines(js, keep), k) == Blame(p, vkey, js, keep, k)
  {
    var lines, j := Lines(js, keep), keep[k];
    EntryDecodes(p, key, js, j);
    RunningHash(p, key, js, keep, k);
    assert VerifierText(p, lines, k) in VerifierTexts(p, lines);
    PredecessorTells(p, key, js, keep, k, inputs);
    HashTells(p, key, js, keep, k, inputs);
    assert HonestAt(p, key, js, j);
    IssuesSpelledOut(p, vkey, HashAt(js, KeptChained(js, keep, k)), At(p, lines[k]), k + 1, Canonical(p, js[j].event));
  }

  /** Any part of an honest log, branches included: the verifier blames exactly the chain lines
      whose last surviving chained line is not what they were sealed onto (a broken link and a hash
      that no longer fits), the lines whose content does not survive re-encoding (the hash alone),
      and under a key the lines sealed under another (the MAC), and no other line; or two texts
      collide. */
  lemma FaultLocalisation(p: Primitives, key: string, vkey: string, js: seq<Entry>, keep: seq<nat>, files: seq<LogFile>)
    requires p.Lawful() && Honest(p, key, js) && Selection(keep, |js|)
    requires Untorn(files) && Flatten(files) == Lines(js, keep)
    ensures var lines := Lines(js, keep);
            || Collision(p, WriterTexts(p, js) + VerifierTexts(p, lines))
            || (&& Verification(p, vkey, files).issues == AllIssues(p, vkey, lines)
                && forall k :: 0 <= k < |lines| ==> IssuesAt(p, vkey, lines, k) == Blame(p, vkey, js, keep, k))
  {
    var lines := Lines(js, keep);
    var inputs := WriterTexts(p, js) + VerifierTexts(p, lines);
    ScanFilesFlat(p, vkey, files);
    ScanMeaning(p, vkey, lines);
    if !Collision(p, inputs) {
      forall k | 0 <= k < |lines|
        ensures IssuesAt(p, vkey, lines, k) == Blame(p, vkey, js, keep, k)
      {
        if js[keep[k]].chained {
          ChainLineFault(p, key, vkey, js, keep, k, inputs);
        } else {
          EntryDecodes(p, key, js, keep[k]);
        }
      }
    }
  }

  // ---------------------------------------------------------------- a chain without branches

  /** Every chained entry was sealed onto the chained entry before it. */
  predicate Linear(js: seq<Entry>) {
    forall i :: 0 <= i < |js| ==> LinearAt(js, i)
  }

  predicate LinearAt(js: seq<Entry>, i: nat)
    requires i < |js|
  {
    js[i].chained ==> js[i].parent == LastChained(js, i)
  }

  function ChainCount(js: seq<Entry>, n: nat): nat
    requires n <= |js|
  {
    if n == 0 then 0 else ChainCount(js, n - 1) + if js[n - 1].chained then 1 else 0
  }

  lemma {:induction false} CountMonotone(js: seq<Entry>, m: nat, n: nat)
    requires m <= n <= |js|
    ensures ChainCount(js, m) <= ChainCount(js, n) <= n
    decreases n
  {
    if m < n {
      CountMonotone(js, m, n - 1);
    } else if n > 0 {
      CountMonotone(js, m - 1, n - 1);
    }
  }

  lemma {:induction false} CountAtLast(js: seq<Entry>, n: nat)
    requires n <= |js|
    ensures ChainCount(js, n) == if LastChained(js, n) < 0 then 0 else ChainCount(js, LastChained(js, n) + 1)
  {
    if n > 0 && !js[n - 1].chained {
      CountAtLast(js, n - 1);
    }
  }

  /** Without branches the lineage of an entry is all that was chained up to it. */
  lemma {:induction false} LinearLineage(p: Primitives, js: seq<Entry>, j: int)
    requires Tree(js) && Linear(js) && IsNode(js, j)
    ensures |Lineage(p, js, j)| == if j < 0 then 0 else ChainCount(js, j + 1)
    decreases j
  {
    if j >= 0 {
      assert Grown(js, j) && LinearAt(js, j);
      CountAtLast(js, j);
      LinearLineage(p, js, js[j].parent);
    }
  }

  /** No two positions of a chain without branches have one lineage. */
  lemma LineagesDiffer(p: Primitives, js: seq<Entry>, i: int, j: nat)
    requires Tree(js) && Linear(js) && IsNode(js, i) && IsNode(js, j) && i < j
    ensures Lineage(p, js, i) != Lineage(p, js, j)
  {
    LinearLineage(p, js, i);
    LinearLineage(p, js, j);
    CountMonotone(js, i + 1, j);
  }

  /** Without branches a line is intact just when its chain predecessor itself survives right
      before it. */
  lemma LinearIntact(p: Primitives, js: seq<Entry>, keep: seq<nat>, k: nat)
    requires Tree(js) && Linear(js) && Selection(keep, |js|) && k < |keep| && js[keep[k]].chained
    ensures Intact(p, js, keep, k) <==> KeptChained(js, keep, k) == LastChained(js, keep[k])
  {
    assert Grown(js, keep[k]) && LinearAt(js, keep[k]);
    var before, kept := js[keep[k]].parent, KeptChained(js, keep, k);
    if kept >= 0 {
      assert kept < keep[k];
    }
    if kept < before {
      LineagesDiffer(p, js, kept, before);
    }
  }
}
