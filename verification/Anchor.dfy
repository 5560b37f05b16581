/** The external anchor: pushing the chain head to a file mirror and comparing against it
    (internal/eventlog/anchor.go). */
module Anchor {
  import opened Wire
  import opened Chain
  import opened VerifyLog
  import opened LogDisk
  import opened Journal
  import opened LogWriter
  import opened LogRun
  import opened Binding

  datatype AnchorRecord = AnchorRecord(chainID: string, seqNo: nat, hash: string, hmac: string)

  /** The pusher's memory of what it pushed last, and the mirror file. */
  datatype AnchorState = AnchorState(lastSeq: nat, mirror: Option<AnchorRecord>)

  datatype AnchorIssue =
    | ChainMismatch(localChain: string, anchorChain: string)
    | Truncation(anchorSeq: nat, localSeq: nat)
    | AnchorHashMismatch(anchorHash: string, localHash: string, seqNo: nat)

  /** `written` says whether writing the mirror succeeds; the pusher's memory moves either way. */
  function PushStep(a: AnchorState, head: ChainState, written: bool): AnchorState {
    if head.lastSeq == 0 || head.lastSeq <= a.lastSeq then a else
    AnchorState(head.lastSeq,
                if written then Some(AnchorRecord(head.chainID, head.lastSeq, head.lastHash, head.lastHMAC))
                else a.mirror)
  }

  function CrossVerify(mirror: Option<AnchorRecord>, head: ChainState): seq<AnchorIssue> {
    match mirror
    case None => []
    case Some(rec) =>
      (if rec.chainID != head.chainID then [ChainMismatch(head.chainID, rec.chainID)] else []) +
      (if rec.seqNo > head.lastSeq then [Truncation(rec.seqNo, head.lastSeq)] else []) +
      (if rec.seqNo == head.lastSeq && rec.hash != "" && head.lastHash != "" && rec.hash != head.lastHash
       then [AnchorHashMismatch(rec.hash, head.lastHash, rec.seqNo)] else [])
  }

  class Pusher {
    var lastSeq: nat
    var mirror: Option<AnchorRecord>

    function View(): AnchorState
      reads this
    {
      AnchorState(lastSeq, mirror)
    }

    constructor (mirror: Option<AnchorRecord>)
      ensures View() == AnchorState(0, mirror)
    {
      lastSeq, this.mirror := 0, mirror;
    }

    method Push(head: ChainState, written: bool)
      modifies this
      ensures View() == PushStep(old(View()), head, written)
    {
      if head.lastSeq == 0 || head.lastSeq <= lastSeq {
        return;
      }
      lastSeq := head.lastSeq;
      if written {
        mirror := Some(AnchorRecord(head.chainID, head.lastSeq, head.lastHash, head.lastHMAC));
      }
    }
  }

  /** Each comparison reports its own issue just when it fails, and nothing else is reported. */
  lemma CrossVerifyMeaning(rec: AnchorRecord, head: ChainState, issue: AnchorIssue)
    ensures issue in CrossVerify(Some(rec), head) <==>
            || (issue == ChainMismatch(head.chainID, rec.chainID) && rec.chainID != head.chainID)
            || (issue == Truncation(rec.seqNo, head.lastSeq) && rec.seqNo > head.lastSeq)
            || (&& issue == AnchorHashMismatch(rec.hash, head.lastHash, rec.seqNo)
                && rec.seqNo == head.lastSeq && rec.hash != "" && head.lastHash != "" && rec.hash != head.lastHash)
  {
    var ids := if rec.chainID != head.chainID then [ChainMismatch(head.chainID, rec.chainID)] else [];
    var cut := if rec.seqNo > head.lastSeq then [Truncation(rec.seqNo, head.lastSeq)] else [];
    var all := CrossVerify(Some(rec), head);
    assert all[..|ids|] == ids && all[|ids|..|ids| + |cut|] == cut;
    var hashes := all[|ids| + |cut|..];
    assert all == ids + cut + hashes;
    assert issue in all <==> issue in ids || issue in cut || issue in hashes;
  }

  // ---------------------------------------------------------------- honest runs

  /** A step of the logger, a push of its head, or a restart of the pusher. */
  datatype Act = Log(op: Op) | Push(written: bool) | RestartPusher

  datatype Pair = Pair(run: Run, anchor: AnchorState)

  function Act1(p: Primitives, key: string, s: Pair, act: Act): Pair {
    match act
    case Log(op) => s.(run := Step(p, key, s.run, op))
    case Push(written) => s.(anchor := PushStep(s.anchor, s.run.world.state, written))
    case RestartPusher => s.(anchor := s.anchor.(lastSeq := 0))
  }

  function PairOf(p: Primitives, key: string, config: Config, acts: seq<Act>): Pair {
    if acts == [] then Pair(RunOf(p, key, config, []), AnchorState(0, None))
    else Act1(p, key, PairOf(p, key, config, acts[..|acts| - 1]), acts[|acts| - 1])
  }

  predicate ProperActs(acts: seq<Act>) {
    forall i :: 0 <= i < |acts| && acts[i].Log? ==> Proper(acts[i].op)
  }

  /** Every restart of the logger takes the chain up where it ended. */
  ghost predicate ResumingActs(p: Primitives, key: string, config: Config, acts: seq<Act>) {
    acts == [] ||
    (ResumingActs(p, key, config, acts[..|acts| - 1]) &&
     (acts[|acts| - 1].Log? ==> Resumes(PairOf(p, key, config, acts[..|acts| - 1]).run, acts[|acts| - 1].op)))
  }

  function RecordOf(e: Event): AnchorRecord {
    AnchorRecord(e.chainID, e.seqNo, e.hash, e.hmac)
  }

  predicate Mirrored(js: seq<Entry>, j: nat, rec: AnchorRecord)
    requires j < |js|
  {
    js[j].chained && rec == RecordOf(js[j].event)
  }

  /** The mirror holds some entry that was once the head. */
  ghost predicate Anchored(js: seq<Entry>, mirror: Option<AnchorRecord>) {
    mirror.Some? ==> mirror.value.seqNo > 0 && exists j :: 0 <= j < |js| && Mirrored(js, j, mirror.value)
  }

  /** A logger without chaining has the empty head. */
  ghost predicate IdleHead(r: Run) {
    !r.world.config.chain ==> r.world.state == NO_STATE
  }

  lemma AnchoredGrows(js: seq<Entry>, js': seq<Entry>, mirror: Option<AnchorRecord>)
    requires js <= js' && Anchored(js, mirror)
    ensures Anchored(js', mirror)
  {
    if mirror.Some? {
      var j :| 0 <= j < |js| && Mirrored(js, j, mirror.value);
      assert Mirrored(js', j, mirror.value);
    }
  }

  lemma {:induction false} ActsKeepInv(p: Primitives, key: string, config: Config, acts: seq<Act>)
    requires p.Lawful() && ProperActs(acts)
    ensures var s := PairOf(p, key, config, acts);
            Inv(p, key, s.run) && IdleHead(s.run) && Anchored(s.run.journal, s.anchor.mirror)
  {
    if acts == [] {
      RunKeepsInv(p, key, config, []);
    } else {
      var s, act := PairOf(p, key, config, acts[..|acts| - 1]), acts[|acts| - 1];
      ActsKeepInv(p, key, config, acts[..|acts| - 1]);
      if act.Log? {
        StepKeepsInv(p, key, s.run, act.op);
        AnchoredGrows(s.run.journal, Step(p, key, s.run, act.op).journal, s.anchor.mirror);
      } else if act.Push? {
        PushAnchors(key, s.run, s.anchor, act.written);
      }
    }
  }

  lemma PushAnchors(key: string, r: Run, a: AnchorState, written: bool)
    requires HeadsAgree(key, r) && IdleHead(r) && Anchored(r.journal, a.mirror)
    ensures Anchored(r.journal, PushStep(a, r.world.state, written).mirror)
  {
    var js, s := r.journal, r.world.state;
    var j := Stand(js, s, |js|);
    if r.world.config.chain && j >= 0 {
      assert Mirrored(js, j, AnchorRecord(s.chainID, s.lastSeq, s.lastHash, s.lastHMAC));
    }
  }

  lemma {:induction false} ActsStayAtHead(p: Primitives, key: string, config: Config, acts: seq<Act>)
    requires p.Lawful() && ProperActs(acts) && ResumingActs(p, key, config, acts)
    ensures AtHead(PairOf(p, key, config, acts).run)
  {
    if acts == [] {
      ResumingRunIsLinear(p, key, config, []);
    } else {
      var s, act := PairOf(p, key, config, acts[..|acts| - 1]), acts[|acts| - 1];
      ActsStayAtHead(p, key, config, acts[..|acts| - 1]);
      if act.Log? {
        ActsKeepInv(p, key, config, acts[..|acts| - 1]);
        StepStaysAtHead(p, key, s.run, act.op);
      }
    }
  }

  /** All entries of a chain without branches carry one chain identifier. */
  lemma {:induction false} OneChain(key: string, js: seq<Entry>, i: nat, j: nat)
    requires Tree(js) && Sequenced(key, js) && Linear(js) && i <= j < |js| && js[i].chained && js[j].chained
    ensures js[i].event.chainID == js[j].event.chainID
    decreases j
  {
    if i < j {
      assert Grown(js, j) && SequencedAt(key, js, j) && LinearAt(js, j);
      OneChain(key, js, i, js[j].parent);
    }
  }

  /** Comparing the head of any entry of a chain without branches with the anchor of another. */
  lemma EntryAgainstAnchor(key: string, js: seq<Entry>, i: int, algo: string, rec: AnchorRecord, j: nat)
    requires Tree(js) && Sequenced(key, js) && Linear(js) && ChainCount(js, |js|) < UINT64
    requires IsNode(js, i) && j < |js| && Mirrored(js, j, rec)
    ensures CrossVerify(Some(rec), StateAt(js, key, i, algo)) == [] <==> j <= i
    ensures rec.seqNo <= StateAt(js, key, i, algo).lastSeq <==> j <= i
  {
    SeqOrder(key, js, j, j);
    if i >= j {
      OneChain(key, js, j, i);
      SeqOrder(key, js, j, i);
    } else if i >= 0 {
      SeqOrder(key, js, i, j);
    }
  }

  /** No false alarm, and the one exception: in every interleaving of writes, rotations, pushes,
      recoveries and restarts that take the chain up where it ended, comparing the logger's head
      with the anchor reports nothing, unless chaining has been switched off with a mirror there. */
  lemma HonestRunsAgree(p: Primitives, key: string, config: Config, acts: seq<Act>)
    requires p.Lawful() && ProperActs(acts) && ResumingActs(p, key, config, acts)
    requires var js := PairOf(p, key, config, acts).run.journal; ChainCount(js, |js|) < UINT64
    ensures var s := PairOf(p, key, config, acts);
            CrossVerify(s.anchor.mirror, s.run.world.state) == [] <==> s.run.world.config.chain || s.anchor.mirror.None?
  {
    var s := PairOf(p, key, config, acts);
    ActsKeepInv(p, key, config, acts);
    ActsStayAtHead(p, key, config, acts);
    if s.anchor.mirror.Some? {
      HeadAgainstAnchor(p, key, s.run, s.anchor.mirror.value);
    }
  }

  lemma HeadAgainstAnchor(p: Primitives, key: string, r: Run, rec: AnchorRecord)
    requires Inv(p, key, r) && AtHead(r) && IdleHead(r) && Anchored(r.journal, Some(rec))
    requires ChainCount(r.journal, |r.journal|) < UINT64
    ensures CrossVerify(Some(rec), r.world.state) == [] <==> r.world.config.chain
  {
    var js, s := r.journal, r.world.state;
    var j :| 0 <= j < |js| && Mirrored(js, j, rec);
    assert HonestAt(p, key, js, j);
    if r.world.config.chain {
      EntryAgainstAnchor(key, js, LastChained(js, |js|), s.algorithm, rec, j);
    }
  }

  /** What any restart, at the head or not, draws after such a run: it is reported exactly when
      chaining is off or the head it finds is older than the mirror, and then always. */
  lemma RestartAlarmIff(p: Primitives, key: string, config: Config, acts: seq<Act>, restart: Config)
    requires p.Lawful() && ProperActs(acts) && ResumingActs(p, key, config, acts)
    requires var js := PairOf(p, key, config, acts).run.journal; ChainCount(js, |js|) < UINT64
    ensures var s := PairOf(p, key, config, acts);
            var head := Started(p, key, s.run.world.disk, restart).state;
            CrossVerify(s.anchor.mirror, head) == [] <==>
            s.anchor.mirror.None? || (restart.chain && s.anchor.mirror.value.seqNo <= head.lastSeq)
  {
    var s := PairOf(p, key, config, acts);
    ActsKeepInv(p, key, config, acts);
    ActsStayAtHead(p, key, config, acts);
    if s.anchor.mirror.Some? {
      var rec := s.anchor.mirror.value;
      var j :| 0 <= j < |s.run.journal| && Mirrored(s.run.journal, j, rec);
      assert HonestAt(p, key, s.run.journal, j);
      if restart.chain {
        var i, algo := StartsAt(p, key, s.run, restart);
        EntryAgainstAnchor(key, s.run.journal, i, algo, rec, j);
      }
    }
  }

  predicate AllWritten(acts: seq<Act>) {
    forall i :: 0 <= i < |acts| && acts[i].Push? ==> acts[i].written
  }

  /** When no push fails, the pusher remembers what the mirror holds, or nothing. */
  lemma {:induction false} MemoryIsMirror(p: Primitives, key: string, config: Config, acts: seq<Act>)
    requires AllWritten(acts)
    ensures var a := PairOf(p, key, config, acts).anchor;
            a.lastSeq > 0 ==> a.mirror.Some? && a.mirror.value.seqNo == a.lastSeq
  {
    if acts != [] {
      MemoryIsMirror(p, key, config, acts[..|acts| - 1]);
    }
  }

  /** When no push fails, a push leaves the mirror at the very head of the chain. */
  lemma PushMirrorsHead(p: Primitives, key: string, config: Config, acts: seq<Act>)
    requires p.Lawful() && ProperActs(acts) && ResumingActs(p, key, config, acts) && AllWritten(acts)
    requires var r := PairOf(p, key, config, acts).run;
             r.world.config.chain && 0 < ChainCount(r.journal, |r.journal|) < UINT64
    ensures var s := PairOf(p, key, config, acts + [Push(true)]);
            var head := s.run.world.state;
            s.anchor.mirror == Some(AnchorRecord(head.chainID, head.lastSeq, head.lastHash, head.lastHMAC))
  {
    var s := PairOf(p, key, config, acts);
    ActsKeepInv(p, key, config, acts);
    ActsStayAtHead(p, key, config, acts);
    MemoryIsMirror(p, key, config, acts);
    assert (acts + [Push(true)])[..|acts|] == acts;
    PushAtHead(p, key, s.run, s.anchor);
  }

  lemma PushAtHead(p: Primitives, key: string, r: Run, a: AnchorState)
    requires Inv(p, key, r) && AtHead(r) && r.world.config.chain && Anchored(r.journal, a.mirror)
    requires 0 < ChainCount(r.journal, |r.journal|) < UINT64
    requires a.lastSeq > 0 ==> a.mirror.Some? && a.mirror.value.seqNo == a.lastSeq
    ensures var head := r.world.state;
            PushStep(a, head, true).mirror
            == Some(AnchorRecord(head.chainID, head.lastSeq, head.lastHash, head.lastHMAC))
  {
    var js := r.journal;
    var last := LastChained(js, |js|);
    CountAtLast(js, |js|);
    SeqOrder(key, js, last, last);
    if a.lastSeq > 0 {
      var j :| 0 <= j < |js| && Mirrored(js, j, a.mirror.value);
      SeqOrder(key, js, j, last);
    }
  }

  /** A push that fails is not made up for: until the head moves, later pushes do nothing. */
  lemma FailedPushNotRetried(a: AnchorState, head: ChainState, again: bool)
    requires head.lastSeq > a.lastSeq
    ensures PushStep(a, head, false).mirror == a.mirror
    ensures PushStep(PushStep(a, head, false), head, again) == PushStep(a, head, false)
  {
  }

  // ---------------------------------------------------------------- truncation

  /** Every chain line is older than number `n`. */
  ghost predicate AllOlder(p: Primitives, lines: seq<string>, n: nat) {
    forall i :: 0 <= i < |lines| && IsChain(p, lines[i]) ==> At(p, lines[i]).seqNo < n
  }

  /** Whatever the run before, branches and dropped lines included: a log cut to chain lines older
      than the mirror, its state file removed, is always reported as truncated once the writer has
      recovered its head from what is left. */
  lemma TruncationCaught(p: Primitives, key: string, config: Config, acts: seq<Act>, cut: Disk, m: nat, restart: Config)
    requires p.Lawful() && ProperActs(acts) && PairOf(p, key, config, acts).anchor.mirror.Some?
    requires var s := PairOf(p, key, config, acts);
             && m <= |History(s.run.world.disk)| && History(cut) == History(s.run.world.disk)[..m] && cut.state.None?
             && AllOlder(p, History(cut), s.anchor.mirror.value.seqNo)
    requires restart.chain
    ensures var mirror, head := PairOf(p, key, config, acts).anchor.mirror, Started(p, key, cut, restart).state;
            Truncation(mirror.value.seqNo, head.lastSeq) in CrossVerify(mirror, head)
  {
    ActsKeepInv(p, key, config, acts);
    RecoverFinds(p, key, restart.Algorithm(), cut);
  }

  /** Without branches, cutting the log anywhere below the mirrored line leaves only older lines. */
  lemma CutBelowAnchor(p: Primitives, key: string, config: Config, acts: seq<Act>, k: nat, m: nat)
    requires p.Lawful() && ProperActs(acts) && ResumingActs(p, key, config, acts)
    requires var js := PairOf(p, key, config, acts).run.journal; ChainCount(js, |js|) < UINT64
    requires var s := PairOf(p, key, config, acts);
             && s.anchor.mirror.Some? && m <= k < |s.run.kept| && s.run.kept[k] < |s.run.journal|
             && Mirrored(s.run.journal, s.run.kept[k], s.anchor.mirror.value)
    ensures var s := PairOf(p, key, config, acts);
            && m <= |History(s.run.world.disk)|
            && AllOlder(p, History(s.run.world.disk)[..m], s.anchor.mirror.value.seqNo)
  {
    var s := PairOf(p, key, config, acts);
    var js, kept := s.run.journal, s.run.kept;
    ActsKeepInv(p, key, config, acts);
    ActsStayAtHead(p, key, config, acts);
    var lines := History(s.run.world.disk);
    forall i | 0 <= i < m && IsChain(p, lines[i])
      ensures At(p, lines[i]).seqNo < s.anchor.mirror.value.seqNo
    {
      EntryDecodes(p, key, js, kept[i]);
      SeqOrder(key, js, kept[i], kept[k]);
    }
  }

  /** No cut is visible to the verifier itself: what is left of an accepted log is accepted. */
  lemma CutAccepted(p: Primitives, vkey: string, files: seq<LogFile>, cut: Disk, m: nat)
    requires p.Lawful() && Verification(p, vkey, files).ok
    requires m <= |Flatten(files)| && History(cut) == Flatten(files)[..m]
    ensures Verification(p, vkey, RotatedFiles(cut)).ok
  {
    FilesAreHistory(cut);
    AcceptancePrefixClosed(p, vkey, files, RotatedFiles(cut));
  }

  /** A log rewritten at the anchored length is caught as well: another accepted log whose chain
      ends on the anchored sequence number either carries the anchored payloads and hashes, or is
      reported for its hash, or comes with a collision. */
  lemma RewriteCaught(p: Primitives, keyA: string, original: seq<LogFile>, keyB: string, rewritten: seq<LogFile>,
                      rec: AnchorRecord, head: ChainState)
    requires p.Lawful() && Verification(p, keyA, original).ok && Verification(p, keyB, rewritten).ok
    requires ChainEvents(p, Flatten(original)) != [] && ChainEvents(p, Flatten(rewritten)) != []
    requires rec.hash == Verification(p, keyA, original).lastHash
    requires head.lastHash == Verification(p, keyB, rewritten).lastHash
    requires rec.seqNo == head.lastSeq
    ensures var a, b := ChainEvents(p, Flatten(original)), ChainEvents(p, Flatten(rewritten));
            || Collision(p, Texts(p, a) + Texts(p, b))
            || (|a| == |b| && Agree(p, a, b, |a|))
            || AnchorHashMismatch(rec.hash, head.lastHash, rec.seqNo) in CrossVerify(Some(rec), head)
  {
    var a, b := ChainEvents(p, Flatten(original)), ChainEvents(p, Flatten(rewritten));
    if rec.hash == head.lastHash {
      LastHashBinds(p, keyA, original, keyB, rewritten);
    } else {
      AcceptedChain(p, keyA, original);
      AcceptedChain(p, keyB, rewritten);
      HashesAreDigests(p, a, |a|);
      HashesAreDigests(p, b, |b|);
      MismatchReported(rec, head);
    }
  }

  lemma MismatchReported(rec: AnchorRecord, head: ChainState)
    requires rec.seqNo == head.lastSeq && rec.hash != "" && head.lastHash != "" && rec.hash != head.lastHash
    ensures AnchorHashMismatch(rec.hash, head.lastHash, rec.seqNo) in CrossVerify(Some(rec), head)
  {
    var issues := CrossVerify(Some(rec), head);
    assert issues[|issues| - 1] == AnchorHashMismatch(rec.hash, head.lastHash, rec.seqNo);
  }

  // ---------------------------------------------------------------- another chain

  /** Some write of the run had `id` to draw. */
  predicate Drawn(ops: seq<Op>, id: string) {
    exists i :: 0 <= i < |ops| && ops[i].Write? && ops[i].freshID == id
  }

  lemma DrawnSnoc(ops: seq<Op>, id: string)
    requires ops != []
    ensures Drawn(ops[..|ops| - 1], id) ==> Drawn(ops, id)
    ensures ops[|ops| - 1].Write? && ops[|ops| - 1].freshID == id ==> Drawn(ops, id)
  {
    var front := ops[..|ops| - 1];
    assert forall i :: 0 <= i < |front| ==> front[i] == ops[i];
  }

  /** The identifier of a sealed event is that of the entry it continues, or freshly drawn. */
  lemma SealedID(p: Primitives, key: string, r: Run, e: Event, freshID: string)
    requires Inv(p, key, r) && r.world.config.chain && e.Blank() && freshID != ""
    requires Prepare(p, key, r.world, e, freshID).Some?
    ensures var x, j := Prepare(p, key, r.world, e, freshID).value, Stand(r.journal, r.world.state, |r.journal|);
            x.event.chainID == if j >= 0 then r.journal[j].event.chainID else freshID
  {
    var j := Stand(r.journal, r.world.state, |r.journal|);
    SealedFields(p, key, r.world.state, e, r.world.config.Algorithm(), freshID);
    if j >= 0 {
      assert HonestAt(p, key, r.journal, j);
    }
  }

  /** Every identifier in a run was drawn in it. */
  lemma {:induction false} IDsAreDrawn(p: Primitives, key: string, config: Config, ops: seq<Op>, i: nat)
    requires p.Lawful() && ProperRun(ops)
    requires var js := RunOf(p, key, config, ops).journal; i < |js| && js[i].chained
    ensures Drawn(ops, RunOf(p, key, config, ops).journal[i].event.chainID)
  {
    var r := RunOf(p, key, config, ops);
    if ops != [] {
      var front, op := ops[..|ops| - 1], ops[|ops| - 1];
      var q := RunOf(p, key, config, front);
      DrawnSnoc(ops, r.journal[i].event.chainID);
      if i < |q.journal| {
        assert r.journal[i] == q.journal[i];
        IDsAreDrawn(p, key, config, front, i);
      } else {
        RunKeepsInv(p, key, config, front);
        SealedID(p, key, q, op.e, op.freshID);
        var j := Stand(q.journal, q.world.state, |q.journal|);
        if j >= 0 {
          IDsAreDrawn(p, key, config, front, j);
        }
      }
    }
  }

  lemma {:induction false} RunIdle(p: Primitives, key: string, config: Config, ops: seq<Op>)
    ensures IdleHead(RunOf(p, key, config, ops))
  {
    if ops != [] {
      RunIdle(p, key, config, ops[..|ops| - 1]);
    }
  }

  /** The live identifier of a run is empty or was drawn in it. */
  lemma LiveIDDrawn(p: Primitives, key: string, config: Config, ops: seq<Op>)
    requires p.Lawful() && ProperRun(ops)
    ensures var id := RunOf(p, key, config, ops).world.state.chainID; id == "" || Drawn(ops, id)
  {
    var r := RunOf(p, key, config, ops);
    RunKeepsInv(p, key, config, ops);
    RunIdle(p, key, config, ops);
    var j := Stand(r.journal, r.world.state, |r.journal|);
    if r.world.config.chain && j >= 0 {
      IDsAreDrawn(p, key, config, ops, j);
    }
  }

  /** A log replaced by that of any other writer, however long, is reported: the mirror of one run
      and the head of another that never drew its identifier do not go together. */
  lemma ForeignChainCaught(p: Primitives, key: string, config: Config, acts: seq<Act>,
                           otherKey: string, otherConfig: Config, ops: seq<Op>)
    requires p.Lawful() && ProperActs(acts) && ProperRun(ops)
    requires var mirror := PairOf(p, key, config, acts).anchor.mirror;
             mirror.Some? && !Drawn(ops, mirror.value.chainID)
    ensures var rec := PairOf(p, key, config, acts).anchor.mirror.value;
            var head := RunOf(p, otherKey, otherConfig, ops).world.state;
            ChainMismatch(head.chainID, rec.chainID) in CrossVerify(Some(rec), head)
  {
    var s := PairOf(p, key, config, acts);
    var rec, head := s.anchor.mirror.value, RunOf(p, otherKey, otherConfig, ops).world.state;
    ActsKeepInv(p, key, config, acts);
    var j :| 0 <= j < |s.run.journal| && Mirrored(s.run.journal, j, rec);
    assert HonestAt(p, key, s.run.journal, j);
    LiveIDDrawn(p, otherKey, otherConfig, ops);
    CrossVerifyMeaning(rec, head, ChainMismatch(head.chainID, rec.chainID));
  }
}
