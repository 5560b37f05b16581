/** A writer that comes back at an older head: the second branch it starts, and what the verifier
    says about it (internal/eventlog/integrity.go). */
module LogFork {
  import opened Wire
  import opened Chain
  import opened VerifyLog
  import opened LogDisk
  import opened Journal
  import opened LogWriter
  import opened LogRun

  lemma {:induction false} LineageSnoc(p: Primitives, js: seq<Entry>, x: Entry, j: int)
    requires Tree(js) && Tree(js + [x]) && IsNode(js, j)
    ensures Lineage(p, js + [x], j) == Lineage(p, js, j)
    decreases j
  {
    if j >= 0 {
      assert Grown(js, j);
      LineageSnoc(p, js, x, js[j].parent);
    }
  }

  lemma {:induction false} KeptChainedSnoc(js: seq<Entry>, x: Entry, keep: seq<nat>, k: nat)
    requires Selection(keep, |js|) && Selection(keep + [|js|], |js + [x]|) && k <= |keep|
    ensures KeptChained(js + [x], keep + [|js|], k) == KeptChained(js, keep, k)
  {
    if k > 0 {
      KeptChainedSnoc(js, x, keep, k - 1);
    }
  }

  /** The entry that continues `h` on a chain without branches. */
  lemma {:induction false} Successor(js: seq<Entry>, h: int, j: nat) returns (i: nat)
    requires Tree(js) && Linear(js) && IsNode(js, h) && IsNode(js, j) && h < j
    ensures h < i <= j && js[i].chained && js[i].parent == h
    decreases j
  {
    assert Grown(js, j) && LinearAt(js, j);
    if js[j].parent == h {
      return j;
    }
    i := Successor(js, h, js[j].parent);
  }

  /** The line of a new entry `x` whose writer stood at `x.parent` while `last` is the last chained
      line before it. */
  lemma BranchBlamed(p: Primitives, js: seq<Entry>, x: Entry, keep: seq<nat>, last: nat)
    requires Tree(js) && Linear(js) && x.chained && IsNode(js, x.parent) && IsNode(js, last) && x.parent < last
    requires Tree(js + [x]) && IsChain(p, x.raw)
    requires Selection(keep, |js|) && Selection(keep + [|js|], |js + [x]|)
    requires KeptChained(js, keep, |keep|) == last
    ensures Kinds(LinkBlame(p, js + [x], keep + [|js|], |keep|)) == [PrevHashBreak, HashMismatch]
  {
    KeptChainedSnoc(js, x, keep, |keep|);
    LineageSnoc(p, js, x, last);
    LineageSnoc(p, js, x, x.parent);
    LineagesDiffer(p, js, x.parent, last);
    assert !Intact(p, js + [x], keep + [|js|], |keep|);
  }

  /** The last line, that of the last entry, is reported with a broken link and a hash that does not
      fit, and with its MAC if the key is not the writer's; or texts collide. */
  ghost predicate LastLineBlamed(p: Primitives, vkey: string, r: Run) {
    var lines := History(r.world.disk);
    && lines != [] && r.journal != []
    && (|| Collision(p, WriterTexts(p, r.journal) + VerifierTexts(p, lines))
        || Kinds(IssuesAt(p, vkey, lines, |lines| - 1)) ==
           [PrevHashBreak, HashMismatch] +
           if MacFits(p, vkey, r.journal[|r.journal| - 1].event) then [] else [HmacMismatch])
  }

  /** What the last survivor of an honest journal is to be blamed for is reported. */
  lemma LastReported(p: Primitives, key: string, vkey: string, r: Run, keep: seq<nat>, k: nat)
    requires p.Lawful() && Honest(p, key, r.journal) && Selection(keep, |r.journal|) && |keep| == k + 1
    requires r.journal != [] && keep[k] == |r.journal| - 1
    requires History(r.world.disk) == Lines(r.journal, keep)
    requires r.journal[keep[k]].chained && IsChain(p, r.journal[keep[k]].raw)
    requires Kinds(LinkBlame(p, r.journal, keep, k)) == [PrevHashBreak, HashMismatch]
    ensures LastLineBlamed(p, vkey, r)
  {
    FilesAreHistory(r.world.disk);
    FaultLocalisation(p, key, vkey, r.journal, keep, RotatedFiles(r.world.disk));
    assert |History(r.world.disk)| == k + 1;
    KindsSplit(p, vkey, r.journal, keep, k);
  }

  lemma KindsSplit(p: Primitives, vkey: string, js: seq<Entry>, keep: seq<nat>, k: nat)
    requires Tree(js) && Selection(keep, |js|) && k < |keep| && js[keep[k]].chained && IsChain(p, js[keep[k]].raw)
    ensures Kinds(Blame(p, vkey, js, keep, k)) ==
            Kinds(LinkBlame(p, js, keep, k)) + if MacFits(p, vkey, js[keep[k]].event) then [] else [HmacMismatch]
  {
  }

  /** A run whose last line is such an entry. */
  lemma BranchReported(p: Primitives, key: string, vkey: string, js: seq<Entry>, x: Entry, keep: seq<nat>, r: Run)
    requires p.Lawful() && Honest(p, key, js + [x]) && Tree(js) && Linear(js)
    requires x.chained && IsNode(js, x.parent) && x.parent < LastChained(js, |js|)
    requires Selection(keep, |js|) && Selection(keep + [|js|], |js + [x]|) && LastChained(js, |js|) in keep
    requires r.journal == js + [x] && History(r.world.disk) == Lines(js + [x], keep + [|js|])
    ensures LastLineBlamed(p, vkey, r)
  {
    assert keep[..|keep|] == keep;
    HeadKept(js, keep, |keep|);
    EntryDecodes(p, key, js + [x], |js|);
    BranchBlamed(p, js, x, keep, LastChained(js, |js|));
    LastReported(p, key, vkey, r, keep + [|js|], |keep|);
  }

  /** The survivors right before entry `|r.journal|` is appended. */
  function KeptBefore(r: Run, x: Prepared, fx: Effects): seq<nat> {
    KeptAfterRotation(Saved(r.world, x.next, fx), r.world.config, |x.raw| + 1, r.kept)
  }

  predicate Landing(r: Run, x: Prepared, fx: Effects) {
    Lands(Saved(r.world, x.next, fx), r.world.config, |x.raw| + 1, fx)
  }

  /** The run after a write that lands. */
  lemma LandedRecord(r: Run, x: Prepared, fx: Effects)
    requires Selection(r.kept, |r.journal|) && History(r.world.disk) == Lines(r.journal, r.kept)
    requires Landing(r, x, fx)
    ensures var r' := Record(r, EntryOf(r, x), x.next, fx);
            var keep := KeptBefore(r, x, fx);
            && Selection(keep, |r.journal|) && r'.kept == keep + [|r.journal|]
            && r'.journal == r.journal + [EntryOf(r, x)] && Selection(r'.kept, |r'.journal|)
            && History(r'.world.disk) == Lines(r'.journal, r'.kept)
  {
    var d := Saved(r.world, x.next, fx);
    StateFileApart(r.world.disk, d.state);
    assert d == r.world.disk.(state := d.state);
    RotationKeepsLines(d, r.world.config, |x.raw| + 1, fx.moved, r.journal, r.kept);
    RecordKeepsDisk(r, EntryOf(r, x), x.next, fx);
  }

  /** A restart that does not find the head leaves the writer standing below it. */
  lemma StaleRestart(p: Primitives, key: string, r: Run, config: Config)
    requires p.Lawful() && Inv(p, key, r) && Linear(r.journal)
    requires config.chain && Supported(config.algo)
    requires 0 < ChainCount(r.journal, |r.journal|) < UINT64
    requires r.world.disk.state.None? ==> AllFit(History(r.world.disk))
    ensures var r' := Step(p, key, r, Restart(config));
            && Inv(p, key, r') && Linear(r'.journal) && r'.world.config.chain
            && (Stand(r'.journal, r'.world.state, |r'.journal|) < LastChained(r'.journal, |r'.journal|)
                <==> !HeadInReach(r))
  {
    RestartKeepsInv(p, key, r, config);
    RestartAtHeadIff(p, key, r, config);
    CountAtLast(r.journal, |r.journal|);
    StandsAtHead(key, r.journal, config, Started(p, key, r.world.disk, config).state);
  }

  lemma StandsAtHead(key: string, js: seq<Entry>, config: Config, s: ChainState)
    requires Poised(js, key, config, s) && Supported(config.algo) && LastChained(js, |js|) >= 0
    ensures s == Head(js, key) <==> Stand(js, s, |js|) == LastChained(js, |js|)
  {
    assert StandsAt(js, Head(js, key), LastChained(js, |js|));
  }

  /** The first write after a restart below the head repeats a sequence number and starts a second
      branch. */
  lemma ForkRepeats(p: Primitives, key: string, r: Run, e: Event, freshID: string) returns (i: nat)
    requires p.Lawful() && Inv(p, key, r) && Linear(r.journal) && r.world.config.chain
    requires Stand(r.journal, r.world.state, |r.journal|) < LastChained(r.journal, |r.journal|)
    requires e.Blank() && freshID != "" && Prepare(p, key, r.world, e, freshID).Some?
    ensures var x := EntryOf(r, Prepare(p, key, r.world, e, freshID).value);
            && i < |r.journal| && r.journal[i].chained
            && x.chained && x.parent == r.journal[i].parent && x.event.seqNo == r.journal[i].event.seqNo
  {
    var js := r.journal;
    var x := EntryOf(r, Prepare(p, key, r.world, e, freshID).value);
    PrepareExtends(p, key, r, e, freshID);
    i := Successor(js, x.parent, LastChained(js, |js|));
    assert SequencedAt(key, js, i) && SequencedAt(key, js + [x], |js|);
    assert SeqAt(js + [x], x.parent) == SeqAt(js, x.parent);
  }

  lemma RecordReported(p: Primitives, key: string, vkey: string, r: Run, x: Prepared, fx: Effects)
    requires p.Lawful() && Inv(p, key, r) && Honest(p, key, r.journal + [EntryOf(r, x)])
    requires Linear(r.journal) && r.world.config.chain
    requires Stand(r.journal, r.world.state, |r.journal|) < LastChained(r.journal, |r.journal|)
    requires Landing(r, x, fx) && LastChained(r.journal, |r.journal|) in KeptBefore(r, x, fx)
    ensures LastLineBlamed(p, vkey, Record(r, EntryOf(r, x), x.next, fx))
  {
    LandedRecord(r, x, fx);
    BranchReported(p, key, vkey, r.journal, EntryOf(r, x), KeptBefore(r, x, fx), Record(r, EntryOf(r, x), x.next, fx));
  }

  /** If the old head's line is still there, the verifier reports a broken link and a hash that does
      not fit on the first line of the second branch. */
  lemma ForkReported(p: Primitives, key: string, vkey: string, r: Run, e: Event, freshID: string, fx: Effects)
    requires p.Lawful() && Inv(p, key, r) && Linear(r.journal) && r.world.config.chain
    requires Stand(r.journal, r.world.state, |r.journal|) < LastChained(r.journal, |r.journal|)
    requires e.Blank() && freshID != "" && Prepare(p, key, r.world, e, freshID).Some?
    requires var x := Prepare(p, key, r.world, e, freshID).value;
             Landing(r, x, fx) && LastChained(r.journal, |r.journal|) in KeptBefore(r, x, fx)
    ensures LastLineBlamed(p, vkey, Step(p, key, r, Write(e, freshID, fx)))
  {
    PrepareExtends(p, key, r, e, freshID);
    RecordReported(p, key, vkey, r, Prepare(p, key, r.world, e, freshID).value, fx);
  }

  // ---------------------------------------------------------------- a run that forks

  const PLAIN := Config(true, "", 0, 1)

  /** What a write that lands, with no limit on the file size, adds to a run. */
  ghost predicate PlainStep(r: Run, r': Run, saved: bool) {
    var js, n := r.journal, |r.journal|;
    && r'.world.config == PLAIN && |r'.journal| == n + 1 && r'.journal[..n] == js
    && r'.journal[n].chained && r'.journal[n].parent == Stand(js, r.world.state, n)
    && r'.journal[n].event.seqNo == (SeqAt(js, r'.journal[n].parent) + 1) % UINT64
    && r'.kept == r.kept + [n] && r'.savedAt == if saved then n else r.savedAt
  }

  lemma PlainRecord(r: Run, x: Prepared, saved: bool)
    requires r.world.config == PLAIN
    requires x.event.seqNo == (SeqAt(r.journal, Stand(r.journal, r.world.state, |r.journal|)) + 1) % UINT64
    ensures Landing(r, x, Effects(saved, true, true)) && KeptBefore(r, x, Effects(saved, true, true)) == r.kept
    ensures PlainStep(r, Record(r, EntryOf(r, x), x.next, Effects(saved, true, true)), saved)
  {
  }

  lemma PlainWrite(p: Primitives, key: string, r: Run, e: Event, freshID: string, saved: bool)
    requires p.Lawful() && Inv(p, key, r) && r.world.config == PLAIN
    requires e.Blank() && freshID != "" && p.encodable(e.content)
    ensures Prepare(p, key, r.world, e, freshID).Some?
    ensures var x, fx := Prepare(p, key, r.world, e, freshID).value, Effects(saved, true, true);
            && Landing(r, x, fx) && KeptBefore(r, x, fx) == r.kept
            && PlainStep(r, Step(p, key, r, Write(e, freshID, fx)), saved)
  {
    SealSucceedsIff(p, r.world.state, e, key, "sha256", freshID);
    var x := Prepare(p, key, r.world, e, freshID).value;
    PrepareExtends(p, key, r, e, freshID);
    var js := r.journal + [EntryOf(r, x)];
    assert SequencedAt(key, js, |r.journal|);
    assert SeqAt(js, EntryOf(r, x).parent) == SeqAt(r.journal, EntryOf(r, x).parent);
    PlainRecord(r, x, saved);
  }

  function ForkOps(e1: Event, e2: Event, e3: Event, id: string): seq<Op> {
    [Write(e1, id, Effects(true, true, true)), Write(e2, id, Effects(false, true, true)), Restart(PLAIN),
     Write(e3, id, Effects(true, true, true))]
  }

  lemma RunOfSnoc(p: Primitives, key: string, config: Config, ops: seq<Op>, op: Op)
    ensures RunOf(p, key, config, ops + [op]) == Step(p, key, RunOf(p, key, config, ops), op)
  {
    assert (ops + [op])[..|ops|] == ops;
  }

  /** `n` chained entries so far, numbered from one, all on the disk. */
  ghost predicate Numbered(js: seq<Entry>, kept: seq<nat>, n: nat) {
    && |js| == n && |kept| == n
    && forall i :: 0 <= i < n ==> js[i].chained && js[i].event.seqNo == i + 1 && kept[i] == i
  }

  ghost predicate Straight(p: Primitives, key: string, r: Run, n: nat) {
    Inv(p, key, r) && AtHead(r) && r.world.config == PLAIN && Numbered(r.journal, r.kept, n)
  }

  lemma NumberedOn(r: Run, r': Run, n: nat, saved: bool)
    requires Numbered(r.journal, r.kept, n) && n + 1 < UINT64 && PlainStep(r, r', saved)
    requires Stand(r.journal, r.world.state, n) == LastChained(r.journal, n)
    ensures Numbered(r'.journal, r'.kept, n + 1)
  {
    assert forall i :: 0 <= i < n ==> r'.journal[i] == r'.journal[..n][i];
    assert LastChained(r.journal, n) == n - 1;
  }

  lemma WriteOn(p: Primitives, key: string, r: Run, n: nat, e: Event, id: string, saved: bool)
    requires p.Lawful() && Straight(p, key, r, n) && n + 1 < UINT64
    requires e.Blank() && id != "" && p.encodable(e.content)
    ensures var r' := Step(p, key, r, Write(e, id, Effects(saved, true, true)));
            Straight(p, key, r', n + 1) && r'.savedAt == if saved then n else r.savedAt
  {
    var op := Write(e, id, Effects(saved, true, true));
    PlainWrite(p, key, r, e, id, saved);
    StepKeepsInv(p, key, r, op);
    StepStaysAtHead(p, key, r, op);
    NumberedOn(r, Step(p, key, r, op), n, saved);
  }

  lemma StartStraight(p: Primitives, key: string)
    requires p.Lawful()
    ensures Straight(p, key, RunOf(p, key, PLAIN, []), 0)
  {
    RunKeepsInv(p, key, PLAIN, []);
    ResumingRunIsLinear(p, key, PLAIN, []);
  }

  /** The write after the restart. */
  lemma ForkWrite(p: Primitives, key: string, vkey: string, r: Run, e: Event, id: string)
    requires p.Lawful() && id != "" && e.Blank() && p.encodable(e.content)
    requires Straight(p, key, r, 2) && r.savedAt == 0
    ensures var r' := Step(p, key, Step(p, key, r, Restart(PLAIN)), Write(e, id, Effects(true, true, true)));
            && |r'.journal| == 3 && r'.kept == [0, 1, 2] && r'.journal[2].parent == 0
            && r'.journal[1].event.seqNo == r'.journal[2].event.seqNo == 2
            && LastLineBlamed(p, vkey, r')
  {
    var back := Step(p, key, r, Restart(PLAIN));
    BackAtFirst(p, key, r);
    PlainWrite(p, key, back, e, id, true);
    assert 1 == r.kept[1];
    ForkReported(p, key, vkey, back, e, id, Effects(true, true, true));
    PlainFork(back, Step(p, key, back, Write(e, id, Effects(true, true, true))));
  }

  lemma PlainFork(r: Run, r': Run)
    requires PlainStep(r, r', true) && |r.journal| == 2 && Stand(r.journal, r.world.state, 2) == 0
    requires r.journal[0].event.seqNo == 1 && r.journal[1].event.seqNo == 2 && r.kept == [0, 1]
    ensures |r'.journal| == 3 && r'.kept == [0, 1, 2] && r'.journal[2].parent == 0
    ensures r'.journal[1].event.seqNo == r'.journal[2].event.seqNo == 2
  {
    assert r'.journal[1] == r'.journal[..2][1];
  }

  /** A save that fails, and a restart: the third event repeats the second one's number, and its
      line is the one the verifier blames. */
  lemma ForkExample(p: Primitives, key: string, vkey: string, e1: Event, e2: Event, e3: Event, id: string)
    requires p.Lawful() && id != ""
    requires e1.Blank() && e2.Blank() && e3.Blank()
    requires p.encodable(e1.content) && p.encodable(e2.content) && p.encodable(e3.content)
    ensures var r := RunOf(p, key, PLAIN, ForkOps(e1, e2, e3, id));
            && |r.journal| == 3 && r.kept == [0, 1, 2] && r.journal[2].parent == 0
            && r.journal[1].event.seqNo == r.journal[2].event.seqNo == 2
            && LastLineBlamed(p, vkey, r)
  {
    var ops := ForkOps(e1, e2, e3, id);
    AfterTwo(p, key, ops, e1, e2, id);
    FourSteps(p, key, ops);
    ForkWrite(p, key, vkey, RunOf(p, key, PLAIN, ops[..2]), e3, id);
  }

  /** After the first two writes: one chain, all on disk, and the state file one behind. */
  lemma AfterTwo(p: Primitives, key: string, ops: seq<Op>, e1: Event, e2: Event, id: string)
    requires p.Lawful() && id != "" && e1.Blank() && e2.Blank() && p.encodable(e1.content) && p.encodable(e2.content)
    requires |ops| == 4 && ops[0] == Write(e1, id, Effects(true, true, true))
    requires ops[1] == Write(e2, id, Effects(false, true, true))
    ensures var r := RunOf(p, key, PLAIN, ops[..2]); Straight(p, key, r, 2) && r.savedAt == 0
  {
    FourSteps(p, key, ops);
    StartStraight(p, key);
    FirstWrites(p, key, RunOf(p, key, PLAIN, []), e1, e2, id);
  }

  lemma FirstWrites(p: Primitives, key: string, r: Run, e1: Event, e2: Event, id: string)
    requires p.Lawful() && id != "" && e1.Blank() && e2.Blank() && p.encodable(e1.content) && p.encodable(e2.content)
    requires Straight(p, key, r, 0)
    ensures var r1 := Step(p, key, r, Write(e1, id, Effects(true, true, true)));
            var r2 := Step(p, key, r1, Write(e2, id, Effects(false, true, true)));
            Straight(p, key, r2, 2) && r2.savedAt == 0
  {
    WriteOn(p, key, r, 0, e1, id, true);
    WriteOn(p, key, Step(p, key, r, Write(e1, id, Effects(true, true, true))), 1, e2, id, false);
  }

  lemma FourSteps(p: Primitives, key: string, ops: seq<Op>)
    requires |ops| == 4
    ensures RunOf(p, key, PLAIN, ops[..1]) == Step(p, key, RunOf(p, key, PLAIN, []), ops[0])
    ensures RunOf(p, key, PLAIN, ops[..2]) == Step(p, key, RunOf(p, key, PLAIN, ops[..1]), ops[1])
    ensures RunOf(p, key, PLAIN, ops) == Step(p, key, Step(p, key, RunOf(p, key, PLAIN, ops[..2]), ops[2]), ops[3])
  {
    assert [] + [ops[0]] == ops[..1] && ops[..1] + [ops[1]] == ops[..2];
    assert ops[..2] + [ops[2]] == ops[..3] && ops[..3] + [ops[3]] == ops;
    RunOfSnoc(p, key, PLAIN, [], ops[0]);
    RunOfSnoc(p, key, PLAIN, ops[..1], ops[1]);
    RunOfSnoc(p, key, PLAIN, ops[..2], ops[2]);
    RunOfSnoc(p, key, PLAIN, ops[..3], ops[3]);
  }

  lemma BackAtFirst(p: Primitives, key: string, r: Run)
    requires p.Lawful() && Inv(p, key, r) && Linear(r.journal)
    requires |r.journal| == 2 && r.savedAt == 0
    requires forall i :: 0 <= i < 2 ==> r.journal[i].chained && r.journal[i].event.seqNo == i + 1
    ensures var r' := Step(p, key, r, Restart(PLAIN));
            && Inv(p, key, r') && r'.world.config == PLAIN && r'.journal == r.journal && r'.kept == r.kept
            && Stand(r'.journal, r'.world.state, 2) == 0 && LastChained(r'.journal, 2) == 1
  {
    var j, algo := StartsAt(p, key, r, PLAIN);
    RestartKeepsInv(p, key, r, PLAIN);
    var s := StateAt(r.journal, key, 0, algo);
    assert !StandsAt(r.journal, s, 1) && StandsAt(r.journal, s, 0);
  }
}
