/** Whole runs of the logger: writes with any outcome, rotations, restarts and loss of the state
    file, and what the verifier finds on the disk they leave. */
module LogRun {
  import opened Wire
  import opened Chain
  import opened VerifyLog
  import opened LogDisk
  import opened Journal
  import opened LogWriter

  // ---------------------------------------------------------------- where a writer stands

  /** The head a writer has right after sealing entry `j`. */
  function StateAt(js: seq<Entry>, key: string, j: int, algo: string): ChainState
    requires IsNode(js, j)
  {
    if j == -1 then NO_STATE else StateFrom(js[j].event, key, algo)
  }

  /** The head of the journal as a whole. */
  function Head(js: seq<Entry>, key: string): ChainState {
    StateAt(js, key, LastChained(js, |js|), "sha256")
  }

  predicate StandsAt(js: seq<Entry>, s: ChainState, j: nat)
    requires j < |js|
  {
    var e := js[j].event;
    js[j].chained && s.chainID == e.chainID && s.lastSeq == e.seqNo && s.lastHash == e.hash && s.lastHMAC == e.hmac
  }

  /** The last of the first `n` entries at which head `s` stands; -1 when there is none. */
  function Stand(js: seq<Entry>, s: ChainState, n: nat): (j: int)
    requires n <= |js|
    ensures IsNode(js, j) && j < n
    ensures j >= 0 ==> StandsAt(js, s, j)
    ensures forall i :: j < i < n ==> !StandsAt(js, s, i)
  {
    if n == 0 then -1 else if StandsAt(js, s, n - 1) then n - 1 else Stand(js, s, n - 1)
  }

  function SeqAt(js: seq<Entry>, j: int): nat
    requires IsNode(js, j)
  {
    if j == -1 then 0 else js[j].event.seqNo
  }

  /** A chained entry continues its parent: the next number (modulo 2^64), the same identifier. */
  ghost predicate Sequenced(key: string, js: seq<Entry>)
    requires Tree(js)
  {
    forall i :: 0 <= i < |js| ==> SequencedAt(key, js, i)
  }

  ghost predicate SequencedAt(key: string, js: seq<Entry>, i: nat)
    requires Tree(js) && i < |js|
  {
    assert Grown(js, i);
    js[i].chained ==>
      && js[i].event.seqNo == (SeqAt(js, js[i].parent) + 1) % UINT64
      && (js[i].parent >= 0 ==> js[i].event.chainID == js[js[i].parent].event.chainID)
      && (key == "" ==> js[i].event.hmac == "")
  }

  lemma {:induction false} PrefixSame(js: seq<Entry>, x: Entry, n: nat)
    requires n <= |js|
    ensures LastChained(js + [x], n) == LastChained(js, n)
    ensures ChainCount(js + [x], n) == ChainCount(js, n)
  {
    if n > 0 {
      PrefixSame(js, x, n - 1);
    }
  }

  lemma TreeSnoc(js: seq<Entry>, x: Entry)
    requires Tree(js) && (x.chained ==> IsNode(js, x.parent))
    ensures Tree(js + [x])
  {
    forall i | 0 <= i < |js + [x]|
      ensures Grown(js + [x], i)
    {
      if i < |js| {
        assert Grown(js, i);
      }
    }
  }

  lemma HonestSnoc(p: Primitives, key: string, js: seq<Entry>, x: Entry)
    requires Honest(p, key, js) && (x.chained ==> IsNode(js, x.parent))
    requires if x.chained then SealedAt(p, key, HashAt(js, x.parent), x.event, x.raw)
             else p.marshal(x.event) == Some(x.raw) && x.event.integrityVersion != INTEGRITY_VERSION
    ensures Honest(p, key, js + [x])
  {
    TreeSnoc(js, x);
    forall i | 0 <= i < |js + [x]|
      ensures HonestAt(p, key, js + [x], i)
    {
      if i < |js| {
        assert HonestAt(p, key, js, i) && Grown(js, i);
      }
    }
  }

  lemma SequencedSnoc(key: string, js: seq<Entry>, x: Entry)
    requires Tree(js) && Sequenced(key, js) && (x.chained ==> IsNode(js, x.parent))
    requires x.chained ==>
      && x.event.seqNo == (SeqAt(js, x.parent) + 1) % UINT64
      && (x.parent >= 0 ==> x.event.chainID == js[x.parent].event.chainID)
      && (key == "" ==> x.event.hmac == "")
    ensures Tree(js + [x]) && Sequenced(key, js + [x])
  {
    TreeSnoc(js, x);
    forall i | 0 <= i < |js + [x]|
      ensures SequencedAt(key, js + [x], i)
    {
      if i < |js| {
        assert SequencedAt(key, js, i) && Grown(js, i);
      }
    }
  }

  // ---------------------------------------------------------------- runs

  datatype Op =
    | Write(e: Event, freshID: string, fx: Effects)
    | Restart(config: Config)
    | LoseState

  /** A logger with the history of what it wrote: every entry it sealed or encoded, the positions
      of those whose lines are on the disk, and the entry whose head the state file holds (-1
      without a state file). */
  datatype Run = Run(world: World, journal: seq<Entry>, kept: seq<nat>, savedAt: int)

  /** The surviving positions once a rotation has deleted the oldest backup. */
  function KeptAfterRotation(d: Disk, config: Config, incoming: nat, kept: seq<nat>): seq<nat> {
    if !NeedsRotation(d, config.maxBytes, incoming) then kept else
    var mb := KeepCount(config.maxBackups);
    var a, o := |Above(d.backups, mb)|, |Oldest(d.backups, mb)|;
    if a + o <= |kept| then kept[..a] + kept[a + o..] else kept
  }

  /** The surviving positions once entry `n` has been written. */
  function KeptAfterWrite(d: Disk, config: Config, incoming: nat, fx: Effects, kept: seq<nat>, n: nat): seq<nat> {
    KeptAfterRotation(d, config, incoming, kept) + if Lands(d, config, incoming, fx) then [n] else []
  }

  /** A prepared event as an entry: a chained one hangs on the entry at which the writer stands. */
  function EntryOf(r: Run, x: Prepared): Entry {
    Entry(r.world.config.chain, x.event, x.raw, Stand(r.journal, r.world.state, |r.journal|))
  }

  function Record(r: Run, x: Entry, next: ChainState, fx: Effects): Run {
    Run(Commit(r.world, x.raw, next, fx), r.journal + [x],
        KeptAfterWrite(Saved(r.world, next, fx), r.world.config, |x.raw| + 1, fx, r.kept, |r.journal|),
        if r.world.config.chain && fx.saved then |r.journal| else r.savedAt)
  }

  function Step(p: Primitives, key: string, r: Run, op: Op): Run {
    match op
    case Write(e, freshID, fx) =>
      (match Prepare(p, key, r.world, e, freshID)
       case None => r
       case Some(x) => Record(r, EntryOf(r, x), x.next, fx))
    case Restart(config) => r.(world := Started(p, key, r.world.disk, config))
    case LoseState => r.(world := r.world.(disk := r.world.disk.(state := None)), savedAt := -1)
  }

  function RunOf(p: Primitives, key: string, config: Config, ops: seq<Op>): Run {
    if ops == [] then Run(Started(p, key, EMPTY_DISK, config), [], [], -1)
    else Step(p, key, RunOf(p, key, config, ops[..|ops| - 1]), ops[|ops| - 1])
  }

  /** A write as callers make it: integrity fields unset, and a fresh identifier to draw.  Nothing
      is asked of restarts: appends, moves and saves may fail, backups may be dropped, state files
      lost or left stale, and the next start takes up whatever head it finds. */
  predicate Proper(op: Op) {
    op.Write? ==> op.e.Blank() && op.freshID != ""
  }

  predicate ProperRun(ops: seq<Op>) {
    forall i :: 0 <= i < |ops| ==> Proper(ops[i])
  }

  /** What every run keeps: the disk holds an ordered selection of an honest journal, and live and
      saved heads are those of entries. */
  ghost predicate Inv(p: Primitives, key: string, r: Run) {
    && Honest(p, key, r.journal)
    && Sequenced(key, r.journal)
    && Selection(r.kept, |r.journal|)
    && History(r.world.disk) == Lines(r.journal, r.kept)
    && HeadsAgree(key, r)
  }

  ghost predicate HeadsAgree(key: string, r: Run) {
    && (r.world.config.chain ==> Poised(r.journal, key, r.world.config, r.world.state))
    && IsNode(r.journal, r.savedAt)
    && r.world.disk.state == if r.savedAt < 0 then None else Some(StateAt(r.journal, key, r.savedAt, "sha256"))
  }

  /** The writer has the head of the entry at which it stands.  An algorithm it does not support
      may have got into a recovered head; no write succeeds under it. */
  ghost predicate Poised(js: seq<Entry>, key: string, config: Config, s: ChainState) {
    var j := Stand(js, s, |js|);
    s == StateAt(js, key, j, s.algorithm) && (Supported(config.algo) && j >= 0 ==> s.algorithm == "sha256")
  }

  // ---------------------------------------------------------------- a write keeps the invariant

  /** The fields of a sealed event that was blank, and of the head after it. */
  lemma SealedFields(p: Primitives, key: string, s: ChainState, e: Event, algo: string, freshID: string)
    requires e.Blank() && freshID != "" && algo != "" && SealChain(p, s, e, key, algo, freshID).Sealed?
    ensures var sealed := SealChain(p, s, e, key, algo, freshID);
            && algo == "sha256" && sealed.event.seqNo == (s.lastSeq + 1) % UINT64
            && sealed.event.chainID == (if s.chainID == "" then freshID else s.chainID)
            && (key == "" ==> sealed.event.hmac == "")
            && sealed.next == StateFrom(sealed.event, key, if s.algorithm == "" then algo else s.algorithm)
                                .(lastHMAC := if key == "" then s.lastHMAC else sealed.event.hmac,
                                  legacyAck := s.legacyAck, hasHMACKey := s.hasHMACKey || key != "")
  {
  }

  /** Sealing at a head: the event continues the entry at which the writer stands, and its own head
      is the next one in every field. */
  lemma SealAdvancesHead(p: Primitives, key: string, js: seq<Entry>, config: Config, s: ChainState, e: Event,
                         freshID: string)
    requires Honest(p, key, js) && Sequenced(key, js) && e.Blank() && freshID != ""
    requires Poised(js, key, config, s)
    requires SealChain(p, s, e, key, config.Algorithm(), freshID).Sealed?
    ensures var sealed := SealChain(p, s, e, key, config.Algorithm(), freshID);
            var x := Entry(true, sealed.event, sealed.raw, Stand(js, s, |js|));
            && SealedAt(p, key, HashAt(js, x.parent), x.event, x.raw)
            && Tree(js + [x]) && Sequenced(key, js + [x])
            && sealed.next == StateFrom(x.event, key, "sha256")
  {
    SealIsHonest(p, s, e, key, config.Algorithm(), freshID);
    SealedFields(p, key, s, e, config.Algorithm(), freshID);
    SealedContinues(p, key, js, config, s, SealChain(p, s, e, key, config.Algorithm(), freshID), freshID);
  }

  lemma SealedContinues(p: Primitives, key: string, js: seq<Entry>, config: Config, s: ChainState, sealed: SealResult,
                        freshID: string)
    requires Honest(p, key, js) && Sequenced(key, js) && Poised(js, key, config, s) && Supported(config.algo)
    requires sealed.Sealed? && sealed.event.seqNo == (s.lastSeq + 1) % UINT64
    requires sealed.event.chainID == if s.chainID == "" then freshID else s.chainID
    requires key == "" ==> sealed.event.hmac == ""
    requires sealed.next == StateFrom(sealed.event, key, if s.algorithm == "" then "sha256" else s.algorithm)
                              .(lastHMAC := if key == "" then s.lastHMAC else sealed.event.hmac,
                                legacyAck := s.legacyAck, hasHMACKey := s.hasHMACKey || key != "")
    ensures var x := Entry(true, sealed.event, sealed.raw, Stand(js, s, |js|));
            && s.lastHash == HashAt(js, x.parent)
            && Tree(js + [x]) && Sequenced(key, js + [x])
            && sealed.next == StateFrom(x.event, key, "sha256")
  {
    var j := Stand(js, s, |js|);
    if j >= 0 {
      assert HonestAt(p, key, js, j) && SequencedAt(key, js, j);
    }
    SequencedSnoc(key, js, Entry(true, sealed.event, sealed.raw, j));
  }

  /** A write of a run changes disk, settings and head as `Logger.Write` does. */
  lemma StepIsWriteStep(p: Primitives, key: string, r: Run, e: Event, freshID: string, fx: Effects)
    ensures Step(p, key, r, Write(e, freshID, fx)).world == WriteStep(p, key, r.world, e, freshID, fx)
  {
  }

  /** The journal half of a write: what it adds is honest, and the new head is its own. */
  lemma PrepareExtends(p: Primitives, key: string, r: Run, e: Event, freshID: string)
    requires Honest(p, key, r.journal) && Sequenced(key, r.journal) && e.Blank() && freshID != ""
    requires r.world.config.chain ==> Poised(r.journal, key, r.world.config, r.world.state)
    requires Prepare(p, key, r.world, e, freshID).Some?
    ensures var x := Prepare(p, key, r.world, e, freshID).value;
            var js := r.journal + [EntryOf(r, x)];
            && Honest(p, key, js) && Sequenced(key, js)
            && (r.world.config.chain ==> x.next == StateFrom(x.event, key, "sha256"))
  {
    var js := r.journal;
    var x := Prepare(p, key, r.world, e, freshID).value;
    if r.world.config.chain {
      SealAdvancesHead(p, key, js, r.world.config, r.world.state, e, freshID);
    } else {
      SequencedSnoc(key, js, EntryOf(r, x));
    }
    HonestSnoc(p, key, js, EntryOf(r, x));
  }

  lemma RecordKeepsHeads(key: string, r: Run, x: Entry, next: ChainState, fx: Effects)
    requires HeadsAgree(key, r) && x.chained == r.world.config.chain
    requires x.chained ==> next == StateFrom(x.event, key, "sha256")
    ensures HeadsAgree(key, Record(r, x, next, fx))
  {
    var r' := Record(r, x, next, fx);
    assert r'.world.config.chain == r.world.config.chain;
    assert r'.world.disk.state == Saved(r.world, next, fx).state;
    assert r'.world.state == next && r'.journal[|r.journal|] == x;
  }

  lemma KeptSlices(js: seq<Entry>, kept: seq<nat>, a: nat, o: nat)
    requires Selection(kept, |js|) && a + o <= |kept|
    ensures Selection(kept[..a] + kept[a + o..], |js|)
    ensures Lines(js, kept[..a] + kept[a + o..]) == Lines(js, kept)[..a] + Lines(js, kept)[a + o..]
  {
    var rest := kept[..a] + kept[a + o..];
    assert forall k :: 0 <= k < |rest| ==> rest[k] == kept[if k < a then k else k + o];
  }

  lemma RotationKeepsLines(d: Disk, config: Config, incoming: nat, moved: bool, js: seq<Entry>, kept: seq<nat>)
    requires Selection(kept, |js|) && History(d) == Lines(js, kept)
    ensures var kept' := KeptAfterRotation(d, config, incoming, kept);
            Selection(kept', |js|) && History(RotatedDisk(d, config, incoming, moved)) == Lines(js, kept')
  {
    if NeedsRotation(d, config.maxBytes, incoming) {
      var mb := KeepCount(config.maxBackups);
      RotateKeepsLines(d, mb, moved, js, kept);
      assert RotatedDisk(d, config, incoming, moved) == Rotate(d, mb, moved);
    }
  }

  lemma RotateKeepsLines(d: Disk, mb: nat, moved: bool, js: seq<Entry>, kept: seq<nat>)
    requires mb >= 1 && Selection(kept, |js|) && History(d) == Lines(js, kept)
    ensures var a, o := |Above(d.backups, mb)|, |Oldest(d.backups, mb)|;
            && a + o <= |kept| && Selection(kept[..a] + kept[a + o..], |js|)
            && History(Rotate(d, mb, moved)) == Lines(js, kept[..a] + kept[a + o..])
  {
    RotationKeepsHistory(d, mb, moved);
    Excised(js, kept, Above(d.backups, mb), Oldest(d.backups, mb), Down(d.backups, 1, mb) + d.Current());
  }

  lemma Excised(js: seq<Entry>, kept: seq<nat>, a: seq<string>, o: seq<string>, rest: seq<string>)
    requires Selection(kept, |js|) && Lines(js, kept) == a + o + rest
    ensures |a| + |o| <= |kept|
    ensures Selection(kept[..|a|] + kept[|a| + |o|..], |js|)
    ensures Lines(js, kept[..|a|] + kept[|a| + |o|..]) == a + rest
  {
    assert |kept| == |Lines(js, kept)|;
    KeptSlices(js, kept, |a|, |o|);
    assert (a + o + rest)[..|a|] == a && (a + o + rest)[|a| + |o|..] == rest;
  }

  lemma AppendExtendsHistory(d: Disk, raw: string)
    ensures History(Appended(d, raw)) == History(d) + [raw]
  {
    HistoryIsDown(d, Bound(d.backups));
    HistoryIsDown(Appended(d, raw), Bound(d.backups));
    assert Down(d.backups, 1, Bound(d.backups)) + (d.Current() + [raw])
        == Down(d.backups, 1, Bound(d.backups)) + d.Current() + [raw];
  }

  lemma StateFileApart(d: Disk, s: Option<ChainState>)
    ensures History(d.(state := s)) == History(d)
  {
  }

  /** The disk half of a write. */
  lemma RecordKeepsDisk(r: Run, x: Entry, next: ChainState, fx: Effects)
    requires Selection(r.kept, |r.journal|) && History(r.world.disk) == Lines(r.journal, r.kept)
    ensures var r' := Record(r, x, next, fx);
            Selection(r'.kept, |r'.journal|) && History(r'.world.disk) == Lines(r'.journal, r'.kept)
  {
    var d := Saved(r.world, next, fx);
    StateFileApart(r.world.disk, d.state);
    assert d == r.world.disk.(state := d.state);
    LineKeepsDisk(d, r.world.config, fx, r.journal, x, r.kept);
  }

  lemma LineKeepsDisk(d: Disk, config: Config, fx: Effects, js: seq<Entry>, x: Entry, kept: seq<nat>)
    requires Selection(kept, |js|) && History(d) == Lines(js, kept)
    ensures var kept' := KeptAfterWrite(d, config, |x.raw| + 1, fx, kept, |js|);
            Selection(kept', |js + [x]|) && History(Placed(d, config, x.raw, fx)) == Lines(js + [x], kept')
  {
    var incoming := |x.raw| + 1;
    RotationKeepsLines(d, config, incoming, fx.moved, js, kept);
    var kept' := KeptAfterRotation(d, config, incoming, kept);
    AppendExtendsHistory(RotatedDisk(d, config, incoming, fx.moved), x.raw);
    LinesSnoc(js, x, kept');
    assert kept' + [] == kept';
  }

  lemma LinesSnoc(js: seq<Entry>, x: Entry, kept: seq<nat>)
    requires Selection(kept, |js|)
    ensures Selection(kept, |js + [x]|) && Selection(kept + [|js|], |js + [x]|)
    ensures Lines(js + [x], kept) == Lines(js, kept)
    ensures Lines(js + [x], kept + [|js|]) == Lines(js, kept) + [x.raw]
  {
  }

  // ---------------------------------------------------------------- a restart keeps the invariant

  /** The last usable chain event of some lines. */
  function LastUsable(p: Primitives, lines: seq<string>): Option<Event> {
    if lines == [] then None
    else if Usable(p, lines[|lines| - 1]) then Some(At(p, lines[|lines| - 1]))
    else LastUsable(p, lines[..|lines| - 1])
  }

  function OrState(e: Option<Event>, key: string, algo: string, acc: Option<ChainState>): Option<ChainState> {
    if e.Some? then Some(StateFrom(e.value, key, algo)) else acc
  }

  lemma {:induction false} LastUsableSplit(p: Primitives, a: seq<string>, b: seq<string>)
    ensures LastUsable(p, a + b) == if LastUsable(p, b).Some? then LastUsable(p, b) else LastUsable(p, a)
  {
    if b == [] {
      assert a + b == a;
    } else {
      assert (a + b)[..|a + b| - 1] == a + b[..|b| - 1];
      LastUsableSplit(p, a, b[..|b| - 1]);
    }
  }

  /** Every line, with its newline, fits into the scanner's megabyte. */
  ghost predicate AllFit(lines: seq<string>) {
    forall i :: 0 <= i < |lines| ==> |lines[i]| < 0x10_0000
  }

  /** A line of a megabyte ends the scan of its file: what follows is not looked at. */
  lemma {:induction false} RecoverStops(p: Primitives, key: string, algo: string, acc: Option<ChainState>,
                                        lines: seq<string>, long: string, rest: seq<string>)
    requires AllFit(lines) && |long| >= 0x10_0000
    ensures RecoverLines(p, key, algo, acc, lines + [long] + rest) == OrState(LastUsable(p, lines), key, algo, acc)
    decreases |lines|
  {
    var all := lines + [long] + rest;
    if lines != [] {
      var acc' := if Usable(p, lines[0]) then Some(StateFrom(At(p, lines[0]), key, algo)) else acc;
      assert all[1..] == lines[1..] + [long] + rest && all[0] == lines[0];
      RecoverStops(p, key, algo, acc', lines[1..], long, rest);
      assert [lines[0]] + lines[1..] == lines && [lines[0]][..0] == [];
      LastUsableSplit(p, [lines[0]], lines[1..]);
    } else {
      assert all[0] == long;
    }
  }

  lemma {:induction false} RecoverLinesMeaning(p: Primitives, key: string, algo: string, acc: Option<ChainState>,
                                               lines: seq<string>)
    requires AllFit(lines)
    ensures RecoverLines(p, key, algo, acc, lines) == OrState(LastUsable(p, lines), key, algo, acc)
    decreases |lines|
  {
    if lines != [] {
      var acc' := if Usable(p, lines[0]) then Some(StateFrom(At(p, lines[0]), key, algo)) else acc;
      RecoverLinesMeaning(p, key, algo, acc', lines[1..]);
      assert [lines[0]] + lines[1..] == lines;
      LastUsableSplit(p, [lines[0]], lines[1..]);
      assert [lines[0]][..0] == [];
    }
  }

  lemma AllFitSplit(a: seq<string>, b: seq<string>)
    requires AllFit(a + b)
    ensures AllFit(a) && AllFit(b)
  {
    var all := a + b;
    assert forall i :: 0 <= i < |a| ==> a[i] == all[i];
    assert forall i :: 0 <= i < |b| ==> b[i] == all[|a| + i];
  }

  lemma {:induction false} RecoverFilesMeaning(p: Primitives, key: string, algo: string, acc: Option<ChainState>,
                                               files: seq<LogFile>)
    requires AllFit(Flatten(files))
    ensures RecoverFiles(p, key, algo, acc, files) == OrState(LastUsable(p, Flatten(files)), key, algo, acc)
    decreases |files|
  {
    if files != [] {
      var first, rest := files[0].lines, files[1..];
      assert [files[0]] + rest == files;
      FlattenSplit([files[0]], rest);
      assert [files[0]][..0] == [] && Flatten([files[0]]) == first;
      AllFitSplit(first, Flatten(rest));
      RecoverLinesMeaning(p, key, algo, acc, first);
      RecoverFilesMeaning(p, key, algo, RecoverLines(p, key, algo, acc, first), rest);
      LastUsableSplit(p, first, Flatten(rest));
    }
  }

  /** Reading the current file a second time changes nothing. */
  lemma RecoverMeaning(p: Primitives, key: string, algo: string, d: Disk)
    requires AllFit(History(d))
    ensures RecoverFromLog(p, key, algo, d) == OrState(LastUsable(p, History(d)), key, algo, None)
  {
    var again := if d.current.Some? then [LogFile(d.current.value, false)] else [];
    var files := RotatedFiles(d);
    FilesAreHistory(d);
    FlatThenLast(files, d);
    FitTwice(d);
    RecoverFilesMeaning(p, key, algo, None, files + again);
    UsableTwice(p, d);
  }

  lemma FitTwice(d: Disk)
    requires AllFit(History(d))
    ensures AllFit(History(d) + d.Current())
  {
    HistoryIsDown(d, Bound(d.backups));
    var all := History(d) + d.Current();
    forall i | 0 <= i < |all|
      ensures |all[i]| < 0x10_0000
    {
      assert i >= |History(d)| ==> all[i] == History(d)[i - |d.Current()|];
    }
  }

  lemma UsableTwice(p: Primitives, d: Disk)
    ensures LastUsable(p, History(d) + d.Current()) == LastUsable(p, History(d))
  {
    HistoryIsDown(d, Bound(d.backups));
    LastUsableSplit(p, History(d), d.Current());
    LastUsableSplit(p, Down(d.backups, 1, Bound(d.backups)), d.Current());
  }

  /** The head a logger starts with, on any disk whose lines fit: that of the state file if it names
      a chain and a hash, or else that of the last usable line, or else whatever the state file has. */
  lemma StartsFromDisk(p: Primitives, key: string, d: Disk, config: Config)
    requires AllFit(History(d))
    ensures var s, last := Started(p, key, d, config).state, LastUsable(p, History(d));
            if !config.chain then s == NO_STATE
            else if d.state.Some? && d.state.value.chainID != "" && d.state.value.lastHash != "" then s == d.state.value
            else if last.Some? then
              && s.chainID == last.value.chainID && s.lastSeq == last.value.seqNo && s.lastHash == last.value.hash
              && s.lastHMAC == last.value.hmac && s.algorithm == (if config.algo == "" then "sha256" else config.algo)
              && s.hasHMACKey == (key != "") && !s.legacyAck
            else s == if d.state.Some? then d.state.value else NO_STATE
  {
    RecoverMeaning(p, key, config.Algorithm(), d);
  }

  lemma EntryUsable(p: Primitives, key: string, js: seq<Entry>, i: nat)
    requires p.Lawful() && Honest(p, key, js) && i < |js|
    ensures Usable(p, js[i].raw) <==> js[i].chained
    ensures js[i].chained ==> At(p, js[i].raw).SameHeader(js[i].event)
  {
    EntryDecodes(p, key, js, i);
    assert HonestAt(p, key, js, i);
  }

  lemma LastUsableSnoc(p: Primitives, lines: seq<string>, k: nat)
    requires k < |lines|
    ensures LastUsable(p, lines[..k + 1]) ==
            if Usable(p, lines[k]) then Some(At(p, lines[k])) else LastUsable(p, lines[..k])
  {
    assert lines[..k + 1][..k] == lines[..k];
  }

  ghost predicate Matches(u: Option<Event>, js: seq<Entry>, j: int) {
    if j < 0 then u.None? else u.Some? && j < |js| && u.value.SameHeader(js[j].event)
  }

  lemma LastUsableStep(p: Primitives, key: string, js: seq<Entry>, keep: seq<nat>, k: nat)
    requires p.Lawful() && Honest(p, key, js) && Selection(keep, |js|) && k < |keep|
    ensures var u := LastUsable(p, Lines(js, keep)[..k + 1]);
            if js[keep[k]].chained then Matches(u, js, keep[k]) else u == LastUsable(p, Lines(js, keep)[..k])
  {
    LastUsableSnoc(p, Lines(js, keep), k);
    EntryUsable(p, key, js, keep[k]);
  }

  /** On an honest log the last usable line is the last surviving chained entry. */
  lemma {:induction false} LastUsableIsKept(p: Primitives, key: string, js: seq<Entry>, keep: seq<nat>, k: nat)
    requires p.Lawful() && Honest(p, key, js) && Selection(keep, |js|) && k <= |keep|
    ensures Matches(LastUsable(p, Lines(js, keep)[..k]), js, KeptChained(js, keep, k))
  {
    if k > 0 {
      LastUsableIsKept(p, key, js, keep, k - 1);
      LastUsableStep(p, key, js, keep, k - 1);
    }
  }

  lemma {:induction false} HeadKept(js: seq<Entry>, keep: seq<nat>, k: nat)
    requires Selection(keep, |js|) && k <= |keep|
    requires LastChained(js, |js|) in keep[..k]
    ensures KeptChained(js, keep, k) == LastChained(js, |js|)
  {
    var j := LastChained(js, |js|);
    var i :| 0 <= i < k && keep[i] == j;
    if i < k - 1 {
      assert keep[k - 1] > j;
      assert keep[..k - 1][i] == j;
      HeadKept(js, keep, k - 1);
    }
  }

  /** Crash recovery: with no over-long line, the scan of the log gives the head of the last
      chained entry that survives. */
  lemma RecoveryFindsKept(p: Primitives, key: string, algo: string, r: Run)
    requires p.Lawful() && Inv(p, key, r) && AllFit(History(r.world.disk))
    ensures var j := KeptChained(r.journal, r.kept, |r.kept|);
            RecoverFromLog(p, key, algo, r.world.disk) ==
            if j < 0 then None else Some(StateAt(r.journal, key, j, algo))
  {
    var js, kept := r.journal, r.kept;
    RecoverMeaning(p, key, algo, r.world.disk);
    LastUsableIsKept(p, key, js, kept, |kept|);
    assert Lines(js, kept)[..|kept|] == Lines(js, kept);
  }

  /** The line of the last chained entry is still on the disk. */
  ghost predicate HeadOnDisk(r: Run) {
    LastChained(r.journal, |r.journal|) in r.kept
  }

  /** With the head's line on disk, recovery gives back exactly the head that was lost. */
  lemma RecoveryFindsHead(p: Primitives, key: string, algo: string, r: Run)
    requires p.Lawful() && Inv(p, key, r) && AllFit(History(r.world.disk)) && HeadOnDisk(r)
    ensures LastChained(r.journal, |r.journal|) >= 0
    ensures RecoverFromLog(p, key, algo, r.world.disk)
         == Some(StateAt(r.journal, key, LastChained(r.journal, |r.journal|), algo))
  {
    RecoveryFindsKept(p, key, algo, r);
    assert r.kept[..|r.kept|] == r.kept;
    HeadKept(r.journal, r.kept, |r.kept|);
  }

  /** Whatever a recovery scan returns comes from a line on the disk, even if it stops early. */
  ghost predicate FromLine(p: Primitives, key: string, algo: string, raw: string, s: ChainState) {
    Usable(p, raw) && s == StateFrom(At(p, raw), key, algo)
  }

  lemma {:induction false} RecoverLinesFinds(p: Primitives, key: string, algo: string, acc: Option<ChainState>,
                                             lines: seq<string>)
    ensures var s := RecoverLines(p, key, algo, acc, lines);
            s == acc || (s.Some? && exists raw :: raw in lines && FromLine(p, key, algo, raw, s.value))
    decreases |lines|
  {
    if lines != [] && Fits(lines[0]) {
      var acc' := if Usable(p, lines[0]) then Some(StateFrom(At(p, lines[0]), key, algo)) else acc;
      RecoverLinesFinds(p, key, algo, acc', lines[1..]);
      assert acc' != acc ==> lines[0] in lines && FromLine(p, key, algo, lines[0], acc'.value);
    }
  }

  lemma {:induction false} RecoverFilesFinds(p: Primitives, key: string, algo: string, acc: Option<ChainState>,
                                             files: seq<LogFile>)
    ensures var s := RecoverFiles(p, key, algo, acc, files);
            s == acc || (s.Some? && exists raw :: raw in Flatten(files) && FromLine(p, key, algo, raw, s.value))
    decreases |files|
  {
    if files != [] {
      var acc' := RecoverLines(p, key, algo, acc, files[0].lines);
      RecoverLinesFinds(p, key, algo, acc, files[0].lines);
      RecoverFilesFinds(p, key, algo, acc', files[1..]);
      assert [files[0]] + files[1..] == files;
      FlattenSplit([files[0]], files[1..]);
      assert [files[0]][..0] == [] && Flatten([files[0]]) == files[0].lines;
    }
  }

  lemma RecoverFinds(p: Primitives, key: string, algo: string, d: Disk)
    ensures var s := RecoverFromLog(p, key, algo, d);
            s.Some? ==> exists raw :: raw in History(d) && FromLine(p, key, algo, raw, s.value)
  {
    var again := if d.current.Some? then [LogFile(d.current.value, false)] else [];
    var files := RotatedFiles(d);
    FilesAreHistory(d);
    RecoverFilesFinds(p, key, algo, None, files + again);
    FlattenSplit(files, again);
    assert again != [] ==> again[..0] == [] && Flatten(again) == d.current.value;
  }

  /** On the disk of an honest writer, a recovered head is the state at some surviving entry. */
  lemma RecoveredIsEntry(p: Primitives, key: string, algo: string, d: Disk, js: seq<Entry>, kept: seq<nat>)
    returns (k: int)
    requires p.Lawful() && Honest(p, key, js) && Selection(kept, |js|) && History(d) == Lines(js, kept)
    ensures if RecoverFromLog(p, key, algo, d).None? then k == -1
            else 0 <= k < |kept| && js[kept[k]].chained
                 && RecoverFromLog(p, key, algo, d).value == StateFrom(js[kept[k]].event, key, algo)
  {
    var s := RecoverFromLog(p, key, algo, d);
    RecoverFinds(p, key, algo, d);
    if s.None? {
      return -1;
    }
    var raw :| raw in History(d) && FromLine(p, key, algo, raw, s.value);
    k :| 0 <= k < |kept| && raw == Lines(js, kept)[k];
    EntryUsable(p, key, js, kept[k]);
  }

  /** The head of an entry is one a writer can stand at. */
  lemma PoisedAt(p: Primitives, key: string, js: seq<Entry>, config: Config, j: int, algo: string)
    requires Honest(p, key, js) && IsNode(js, j) && (Supported(config.algo) ==> algo == "sha256")
    ensures Poised(js, key, config, StateAt(js, key, j, algo))
    ensures Stand(js, StateAt(js, key, j, algo), |js|) >= j
    ensures j < 0 ==> Stand(js, StateAt(js, key, j, algo), |js|) == -1
  {
    var s := StateAt(js, key, j, algo);
    var k := Stand(js, s, |js|);
    if k >= 0 {
      assert HonestAt(p, key, js, k);
    }
    if j >= 0 {
      assert StandsAt(js, s, j);
    }
  }

  /** Where the head of a starting writer comes from: the state file, or else the log. */
  lemma StartsAt(p: Primitives, key: string, r: Run, config: Config) returns (j: int, algo: string)
    requires p.Lawful() && Inv(p, key, r) && config.chain
    ensures IsNode(r.journal, j) && Started(p, key, r.world.disk, config).state == StateAt(r.journal, key, j, algo)
    ensures Supported(config.algo) ==> algo == "sha256"
    ensures r.world.disk.state.Some? ==> j == r.savedAt
    ensures r.world.disk.state.None? && j >= 0 ==> j in r.kept
  {
    var js := r.journal;
    if r.savedAt >= 0 {
      assert HonestAt(p, key, js, r.savedAt);
      return r.savedAt, "sha256";
    }
    var k := RecoveredIsEntry(p, key, config.Algorithm(), r.world.disk, js, r.kept);
    j, algo := if k < 0 then -1 else r.kept[k], config.Algorithm();
  }

  lemma RestartKeepsInv(p: Primitives, key: string, r: Run, config: Config)
    requires p.Lawful() && Inv(p, key, r)
    ensures Inv(p, key, Step(p, key, r, Restart(config)))
  {
    if config.chain {
      var j, algo := StartsAt(p, key, r, config);
      PoisedAt(p, key, r.journal, config, j, algo);
    }
  }

  lemma WriteKeepsInv(p: Primitives, key: string, r: Run, e: Event, freshID: string, fx: Effects)
    requires Inv(p, key, r) && e.Blank() && freshID != ""
    requires Prepare(p, key, r.world, e, freshID).Some?
    ensures Inv(p, key, Step(p, key, r, Write(e, freshID, fx)))
  {
    PrepareExtends(p, key, r, e, freshID);
    var x := Prepare(p, key, r.world, e, freshID).value;
    RecordKeepsHeads(key, r, EntryOf(r, x), x.next, fx);
    RecordKeepsDisk(r, EntryOf(r, x), x.next, fx);
    assert Step(p, key, r, Write(e, freshID, fx)) == Record(r, EntryOf(r, x), x.next, fx);
  }

  lemma StepKeepsInv(p: Primitives, key: string, r: Run, op: Op)
    requires p.Lawful() && Inv(p, key, r) && Proper(op)
    ensures Inv(p, key, Step(p, key, r, op))
  {
    match op
    case Write(e, freshID, fx) =>
      if Prepare(p, key, r.world, e, freshID).Some? {
        WriteKeepsInv(p, key, r, e, freshID, fx);
      }
    case Restart(config) => RestartKeepsInv(p, key, r, config);
    case LoseState => StateFileApart(r.world.disk, None);
  }

  lemma {:induction false} RunKeepsInv(p: Primitives, key: string, config: Config, ops: seq<Op>)
    requires p.Lawful() && ProperRun(ops)
    ensures Inv(p, key, RunOf(p, key, config, ops))
  {
    if ops == [] {
      HistoryIsDown(EMPTY_DISK, 1);
      var r := Run(World(EMPTY_DISK, config, NO_STATE), [], [], -1);
      assert Inv(p, key, r);
      RestartKeepsInv(p, key, r, config);
    } else {
      RunKeepsInv(p, key, config, ops[..|ops| - 1]);
      StepKeepsInv(p, key, RunOf(p, key, config, ops[..|ops| - 1]), ops[|ops| - 1]);
    }
  }

  /** Over every run, with failed appends, moves and saves, dropped backups, lost and stale state
      files and the branches they lead to: the verifier blames exactly the chain lines whose last
      surviving chained line is not what they were sealed onto, the lines that do not re-encode to
      what was hashed, and the lines whose MAC is that of another key. */
  lemma RunFaultsLocalised(p: Primitives, key: string, vkey: string, config: Config, ops: seq<Op>)
    requires p.Lawful() && ProperRun(ops)
    ensures var r := RunOf(p, key, config, ops);
            var lines := History(r.world.disk);
            && Tree(r.journal) && Selection(r.kept, |r.journal|) && lines == Lines(r.journal, r.kept)
            && (|| Collision(p, WriterTexts(p, r.journal) + VerifierTexts(p, lines))
                || (&& Verification(p, vkey, RotatedFiles(r.world.disk)).issues == AllIssues(p, vkey, lines)
                    && forall k :: 0 <= k < |lines| ==>
                         IssuesAt(p, vkey, lines, k) == Blame(p, vkey, r.journal, r.kept, k)))
  {
    var r := RunOf(p, key, config, ops);
    RunKeepsInv(p, key, config, ops);
    FilesAreHistory(r.world.disk);
    FaultLocalisation(p, key, vkey, r.journal, r.kept, RotatedFiles(r.world.disk));
  }

  // ---------------------------------------------------------------- restarts and branches

  /** The head of the journal can be found again: the state file holds it, or there is no state
      file and its line is on the disk. */
  ghost predicate HeadInReach(r: Run) {
    if r.world.disk.state.Some? then r.savedAt == LastChained(r.journal, |r.journal|) else HeadOnDisk(r)
  }

  /** Without branches, the last sequence number counts the chained entries. */
  lemma {:induction false} LastCounts(key: string, js: seq<Entry>, n: nat)
    requires Tree(js) && Sequenced(key, js) && Linear(js) && n <= |js|
    ensures SeqAt(js, LastChained(js, n)) == ChainCount(js, n) % UINT64
  {
    if n > 0 {
      LastCounts(key, js, n - 1);
      assert Grown(js, n - 1) && SequencedAt(key, js, n - 1) && LinearAt(js, n - 1);
      OneMore(ChainCount(js, n - 1));
    }
  }

  lemma OneMore(c: nat)
    ensures (c % UINT64 + 1) % UINT64 == (c + 1) % UINT64
  {
  }

  /** The head's sequence number counts the chained entries. */
  lemma HeadCounts(key: string, js: seq<Entry>)
    requires Tree(js) && Sequenced(key, js) && Linear(js)
    ensures Head(js, key).lastSeq == ChainCount(js, |js|) % UINT64
  {
    LastCounts(key, js, |js|);
  }

  lemma SeqExact(key: string, js: seq<Entry>, i: nat)
    requires Tree(js) && Sequenced(key, js) && Linear(js) && i < |js| && js[i].chained
    requires ChainCount(js, |js|) < UINT64
    ensures js[i].event.seqNo == ChainCount(js, i + 1) == ChainCount(js, i) + 1
  {
    LastCounts(key, js, i + 1);
    CountMonotone(js, i + 1, |js|);
  }

  /** Below 2^64 chained writes, later entries have strictly larger sequence numbers. */
  lemma SeqOrder(key: string, js: seq<Entry>, i: nat, j: nat)
    requires Tree(js) && Sequenced(key, js) && Linear(js) && i <= j < |js| && js[i].chained && js[j].chained
    requires ChainCount(js, |js|) < UINT64
    ensures 0 < js[i].event.seqNo <= js[j].event.seqNo
    ensures i < j ==> js[i].event.seqNo < js[j].event.seqNo
  {
    SeqExact(key, js, i);
    SeqExact(key, js, j);
    if i < j {
      CountMonotone(js, i + 1, j);
    }
  }

  /** Two entries of a chain without branches have different heads. */
  lemma HeadsDiffer(p: Primitives, key: string, js: seq<Entry>, i: int, j: nat)
    requires Honest(p, key, js) && Sequenced(key, js) && Linear(js) && ChainCount(js, |js|) < UINT64
    requires IsNode(js, i) && IsNode(js, j) && i < j
    ensures StateAt(js, key, i, "sha256") != StateAt(js, key, j, "sha256")
  {
    SeqOrder(key, js, if i < 0 then j else i, j);
  }

  /** The entry whose head a start finds when no line is too long for the scan. */
  function FoundAt(r: Run): int
    requires Selection(r.kept, |r.journal|)
  {
    if r.world.disk.state.Some? then r.savedAt else KeptChained(r.journal, r.kept, |r.kept|)
  }

  lemma StartsAtFound(p: Primitives, key: string, r: Run, config: Config)
    requires p.Lawful() && Inv(p, key, r) && config.chain && Supported(config.algo)
    requires r.world.disk.state.None? ==> AllFit(History(r.world.disk))
    ensures IsNode(r.journal, FoundAt(r))
    ensures Started(p, key, r.world.disk, config).state == StateAt(r.journal, key, FoundAt(r), "sha256")
  {
    var j, algo := StartsAt(p, key, r, config);
    if r.world.disk.state.None? {
      RecoveryFindsKept(p, key, "sha256", r);
    }
  }

  lemma FoundIffInReach(r: Run)
    requires Selection(r.kept, |r.journal|) && LastChained(r.journal, |r.journal|) >= 0
    ensures FoundAt(r) == LastChained(r.journal, |r.journal|) <==> HeadInReach(r)
  {
    assert r.kept[..|r.kept|] == r.kept;
    if HeadOnDisk(r) {
      HeadKept(r.journal, r.kept, |r.kept|);
    }
  }

  /** When a restart takes the chain up where it ended: exactly when the state file holds the last
      head, or is gone while the last chained line is on disk.  A state file that the last seal
      failed to save, or a head whose line never landed, brings the writer back at an older head. */
  lemma RestartAtHeadIff(p: Primitives, key: string, r: Run, config: Config)
    requires p.Lawful() && Inv(p, key, r) && Linear(r.journal)
    requires config.chain && Supported(config.algo)
    requires 0 < ChainCount(r.journal, |r.journal|) < UINT64
    requires r.world.disk.state.None? ==> AllFit(History(r.world.disk))
    ensures Started(p, key, r.world.disk, config).state == Head(r.journal, key) <==> HeadInReach(r)
  {
    var js := r.journal;
    CountAtLast(js, |js|);
    StartsAtFound(p, key, r, config);
    FoundIffInReach(r);
    if FoundAt(r) < LastChained(js, |js|) {
      HeadsDiffer(p, key, js, FoundAt(r), LastChained(js, |js|));
    }
  }

  /** A restart that takes the chain up where it ended. */
  ghost predicate Resumes(r: Run, op: Op) {
    op.Restart? && op.config.chain && LastChained(r.journal, |r.journal|) >= 0 ==>
      HeadInReach(r) && (r.world.disk.state.None? ==> AllFit(History(r.world.disk)))
  }

  ghost predicate ResumingRun(p: Primitives, key: string, config: Config, ops: seq<Op>) {
    ops == [] ||
    (ResumingRun(p, key, config, ops[..|ops| - 1]) && Resumes(RunOf(p, key, config, ops[..|ops| - 1]), ops[|ops| - 1]))
  }

  /** No branch so far, and none to come with the next write. */
  ghost predicate AtHead(r: Run) {
    && Linear(r.journal)
    && (r.world.config.chain ==> Stand(r.journal, r.world.state, |r.journal|) == LastChained(r.journal, |r.journal|))
  }

  lemma LinearSnoc(js: seq<Entry>, x: Entry)
    requires Linear(js) && (x.chained ==> x.parent == LastChained(js, |js|))
    ensures Linear(js + [x])
    ensures LastChained(js + [x], |js| + 1) == if x.chained then |js| else LastChained(js, |js|)
  {
    PrefixSame(js, x, |js|);
    forall i | 0 <= i < |js + [x]|
      ensures LinearAt(js + [x], i)
    {
      PrefixSame(js, x, i);
      if i < |js| {
        assert LinearAt(js, i);
      }
    }
  }

  lemma WriteStaysAtHead(p: Primitives, key: string, r: Run, e: Event, freshID: string, fx: Effects)
    requires Inv(p, key, r) && AtHead(r) && e.Blank() && freshID != ""
    requires Prepare(p, key, r.world, e, freshID).Some?
    ensures AtHead(Step(p, key, r, Write(e, freshID, fx)))
  {
    var x := Prepare(p, key, r.world, e, freshID).value;
    PrepareExtends(p, key, r, e, freshID);
    LinearSnoc(r.journal, EntryOf(r, x));
    var r' := Record(r, EntryOf(r, x), x.next, fx);
    assert r'.world.state == x.next && r'.world.config.chain == r.world.config.chain;
    assert r'.journal[|r.journal|] == EntryOf(r, x);
    assert Step(p, key, r, Write(e, freshID, fx)) == r';
  }

  lemma RestartStaysAtHead(p: Primitives, key: string, r: Run, config: Config)
    requires p.Lawful() && Inv(p, key, r) && AtHead(r) && Resumes(r, Restart(config))
    ensures AtHead(Step(p, key, r, Restart(config)))
  {
    if config.chain {
      var last := LastChained(r.journal, |r.journal|);
      var j, algo := StartsAt(p, key, r, config);
      if last >= 0 && r.world.disk.state.None? {
        RecoveryFindsHead(p, key, config.Algorithm(), r);
        PoisedAt(p, key, r.journal, config, last, config.Algorithm());
      } else {
        PoisedAt(p, key, r.journal, config, j, algo);
      }
    }
  }

  lemma StepStaysAtHead(p: Primitives, key: string, r: Run, op: Op)
    requires p.Lawful() && Inv(p, key, r) && AtHead(r) && Proper(op) && Resumes(r, op)
    ensures AtHead(Step(p, key, r, op))
  {
    match op
    case Write(e, freshID, fx) =>
      if Prepare(p, key, r.world, e, freshID).Some? {
        WriteStaysAtHead(p, key, r, e, freshID, fx);
      }
    case Restart(config) => RestartStaysAtHead(p, key, r, config);
    case LoseState =>
  }

  /** A run whose restarts all take the chain up where it ended has one chain without branches. */
  lemma {:induction false} ResumingRunIsLinear(p: Primitives, key: string, config: Config, ops: seq<Op>)
    requires p.Lawful() && ProperRun(ops) && ResumingRun(p, key, config, ops)
    ensures AtHead(RunOf(p, key, config, ops))
  {
    if ops != [] {
      RunKeepsInv(p, key, config, ops[..|ops| - 1]);
      ResumingRunIsLinear(p, key, config, ops[..|ops| - 1]);
      StepStaysAtHead(p, key, RunOf(p, key, config, ops[..|ops| - 1]), ops[|ops| - 1]);
    } else {
      assert Stand([], RunOf(p, key, config, ops).world.state, 0) == -1;
    }
  }

  // ---------------------------------------------------------------- clean runs

  /** Moves and appends succeed, a rotation finds nothing to delete, and a restart finds the head. */
  ghost predicate CleanStep(p: Primitives, key: string, r: Run, op: Op) {
    && Resumes(r, op)
    && (op.Write? ==>
      && op.fx.moved && op.fx.appended
      && (Prepare(p, key, r.world, op.e, op.freshID).Some? ==>
            var incoming := |Prepare(p, key, r.world, op.e, op.freshID).value.raw| + 1;
            NeedsRotation(r.world.disk, r.world.config.maxBytes, incoming) ==>
              Oldest(r.world.disk.backups, KeepCount(r.world.config.maxBackups)) == []))
  }

  ghost predicate CleanRun(p: Primitives, key: string, config: Config, ops: seq<Op>) {
    ops == [] ||
    (CleanRun(p, key, config, ops[..|ops| - 1]) &&
     CleanStep(p, key, RunOf(p, key, config, ops[..|ops| - 1]), ops[|ops| - 1]))
  }

  function Everything(n: nat): (s: seq<nat>)
    ensures |s| == n && forall k :: 0 <= k < n ==> s[k] == k
    ensures Selection(s, n)
  {
    seq(n, k => k)
  }

  lemma {:induction false} CleanKeepsEverything(p: Primitives, key: string, config: Config, ops: seq<Op>)
    requires CleanRun(p, key, config, ops)
    ensures var r := RunOf(p, key, config, ops); r.kept == Everything(|r.journal|)
  {
    if ops != [] {
      CleanKeepsEverything(p, key, config, ops[..|ops| - 1]);
      var r, op := RunOf(p, key, config, ops[..|ops| - 1]), ops[|ops| - 1];
      if op.Write? && Prepare(p, key, r.world, op.e, op.freshID).Some? {
        var x := Prepare(p, key, r.world, op.e, op.freshID).value;
        RecordKeepsEverything(r, EntryOf(r, x), x.next, op.fx);
      }
    }
  }

  lemma {:induction false} CleanResumes(p: Primitives, key: string, config: Config, ops: seq<Op>)
    requires CleanRun(p, key, config, ops)
    ensures ResumingRun(p, key, config, ops)
  {
    if ops != [] {
      CleanResumes(p, key, config, ops[..|ops| - 1]);
    }
  }

  lemma RecordKeepsEverything(r: Run, x: Entry, next: ChainState, fx: Effects)
    requires r.kept == Everything(|r.journal|) && fx.moved && fx.appended
    requires NeedsRotation(r.world.disk, r.world.config.maxBytes, |x.raw| + 1) ==>
               Oldest(r.world.disk.backups, KeepCount(r.world.config.maxBackups)) == []
    ensures Record(r, x, next, fx).kept == Everything(|r.journal| + 1)
  {
    var d := Saved(r.world, next, fx);
    assert d.backups == r.world.disk.backups && d.current == r.world.disk.current;
    var a := |Above(d.backups, KeepCount(r.world.config.maxBackups))|;
    if a <= |r.kept| {
      assert r.kept[..a] + r.kept[a..] == r.kept;
    }
    assert KeptAfterRotation(d, r.world.config, |x.raw| + 1, r.kept) == r.kept;
    assert Everything(|r.journal|) + [|r.journal|] == Everything(|r.journal| + 1);
  }

  lemma {:induction false} EverythingIntact(js: seq<Entry>, k: nat)
    requires k <= |js|
    ensures KeptChained(js, Everything(|js|), k) == LastChained(js, k)
  {
    if k > 0 {
      EverythingIntact(js, k - 1);
    }
  }

  lemma ChainEventsSnoc(p: Primitives, lines: seq<string>, k: nat)
    requires k < |lines|
    ensures ChainEvents(p, lines[..k + 1])
            == ChainEvents(p, lines[..k]) + if IsChain(p, lines[k]) then [At(p, lines[k])] else []
  {
    assert lines[..k + 1][..k] == lines[..k];
  }

  ghost predicate Mirrors(es: seq<Event>, js: seq<Entry>, k: nat)
    requires k <= |js|
  {
    && |es| == ChainCount(js, k)
    && (if LastChained(js, k) < 0 then es == [] else es != [] && es[|es| - 1].SameHeader(js[LastChained(js, k)].event))
  }

  /** Reading a complete honest log gives the chained entries, in order. */
  lemma {:induction false} ChainEventsOfJournal(p: Primitives, key: string, js: seq<Entry>, k: nat)
    requires p.Lawful() && Honest(p, key, js) && k <= |js|
    ensures Mirrors(ChainEvents(p, Lines(js, Everything(|js|))[..k]), js, k)
  {
    if k > 0 {
      ChainEventsOfJournal(p, key, js, k - 1);
      var lines := Lines(js, Everything(|js|));
      ChainEventsSnoc(p, lines, k - 1);
      EntryDecodes(p, key, js, k - 1);
    }
  }

  ghost predicate AllCanonical(p: Primitives, js: seq<Entry>) {
    forall i :: 0 <= i < |js| && js[i].chained ==> Canonical(p, js[i].event)
  }

  /** Every chained event carries the MAC expected under `vkey`. */
  ghost predicate AllMacsFit(p: Primitives, vkey: string, js: seq<Entry>) {
    forall i :: 0 <= i < |js| && js[i].chained ==> MacFits(p, vkey, js[i].event)
  }

  lemma OwnMacsFit(p: Primitives, key: string, js: seq<Entry>)
    requires Honest(p, key, js)
    ensures AllMacsFit(p, key, js) && AllMacsFit(p, "", js)
  {
    forall i | 0 <= i < |js| && js[i].chained
      ensures MacFits(p, key, js[i].event)
    {
      assert HonestAt(p, key, js, i);
    }
  }

  lemma CleanCounts(p: Primitives, key: string, vkey: string, js: seq<Entry>, files: seq<LogFile>)
    requires p.Lawful() && Honest(p, key, js) && Sequenced(key, js) && Linear(js)
    requires Untorn(files) && Flatten(files) == Lines(js, Everything(|js|))
    ensures var v := Verification(p, vkey, files);
            && v.linesScanned == |js|
            && v.chainLines == ChainCount(js, |js|)
            && v.lastSeq == ChainCount(js, |js|) % UINT64
            && v.lastHash == Head(js, key).lastHash
            && MaximalRuns(p, Flatten(files), v.segments)
  {
    VerifyMeaning(p, vkey, files);
    ChainEventsOfJournal(p, key, js, |js|);
    assert Flatten(files)[..|js|] == Flatten(files);
    JournalTold(p, key, js, Flatten(files), Verification(p, vkey, files));
  }

  /** What a report on a complete journal tells about it. */
  lemma JournalTold(p: Primitives, key: string, js: seq<Entry>, lines: seq<string>, v: Report)
    requires Tree(js) && Sequenced(key, js) && Linear(js)
    requires |lines| == |js| && Mirrors(ChainEvents(p, lines), js, |js|) && Tells(p, lines, v)
    ensures v.linesScanned == |js| && v.chainLines == ChainCount(js, |js|)
    ensures v.lastSeq == ChainCount(js, |js|) % UINT64 && v.lastHash == Head(js, key).lastHash
    ensures MaximalRuns(p, lines, v.segments)
  {
    HeadCounts(key, js);
  }

  lemma CompleteLogOk(p: Primitives, key: string, vkey: string, js: seq<Entry>, files: seq<LogFile>)
    requires p.Lawful() && Honest(p, key, js) && Linear(js)
    requires Untorn(files) && Flatten(files) == Lines(js, Everything(|js|))
    ensures || Collision(p, WriterTexts(p, js) + VerifierTexts(p, Flatten(files)))
            || (Verification(p, vkey, files).ok <==> AllCanonical(p, js) && AllMacsFit(p, vkey, js))
  {
    var keep, lines := Everything(|js|), Flatten(files);
    FaultLocalisation(p, key, vkey, js, keep, files);
    AllIssuesEmpty(p, vkey, lines);
    if !Collision(p, WriterTexts(p, js) + VerifierTexts(p, lines)) {
      forall k | 0 <= k < |js|
        ensures IssuesAt(p, vkey, lines, k) == [] <==>
                (js[k].chained ==> Canonical(p, js[k].event) && MacFits(p, vkey, js[k].event))
      {
        EverythingIntact(js, k);
        EntryDecodes(p, key, js, k);
        if js[k].chained {
          LinearIntact(p, js, keep, k);
        }
        assert IssuesAt(p, vkey, lines, k) == Blame(p, vkey, js, keep, k);
      }
    }
  }

  /** Completeness over runs: after any run of chained and unchained writes, rotations, restarts
      and recoveries in which every line lands and no backup is dropped, the verifier counts
      every chained write, ends on the writer's head, and reports exactly the maximal runs of
      unchained lines; and it accepts the log just when every chained event re-encodes to the
      bytes that were hashed and carries the MAC expected, as it does under the writer's own key or
      none. */
  lemma CleanRunVerifies(p: Primitives, key: string, vkey: string, config: Config, ops: seq<Op>)
    requires p.Lawful() && ProperRun(ops) && CleanRun(p, key, config, ops)
    ensures var r := RunOf(p, key, config, ops);
            var v := Verification(p, vkey, RotatedFiles(r.world.disk));
            && v.linesScanned == |r.journal|
            && v.chainLines == ChainCount(r.journal, |r.journal|)
            && v.lastSeq == ChainCount(r.journal, |r.journal|) % UINT64
            && v.lastHash == Head(r.journal, key).lastHash
            && (r.world.config.chain ==> v.lastHash == r.world.state.lastHash && v.lastSeq == r.world.state.lastSeq)
            && MaximalRuns(p, History(r.world.disk), v.segments)
            && (|| Collision(p, WriterTexts(p, r.journal) + VerifierTexts(p, History(r.world.disk)))
                || (v.ok <==> AllCanonical(p, r.journal) && AllMacsFit(p, vkey, r.journal)))
            && (vkey == "" || vkey == key ==> AllMacsFit(p, vkey, r.journal))
  {
    var r := RunOf(p, key, config, ops);
    RunKeepsInv(p, key, config, ops);
    CleanKeepsEverything(p, key, config, ops);
    CleanResumes(p, key, config, ops);
    ResumingRunIsLinear(p, key, config, ops);
    FilesAreHistory(r.world.disk);
    assert Flatten(RotatedFiles(r.world.disk)) == History(r.world.disk);
    CleanCounts(p, key, vkey, r.journal, RotatedFiles(r.world.disk));
    CompleteLogOk(p, key, vkey, r.journal, RotatedFiles(r.world.disk));
    OwnMacsFit(p, key, r.journal);
    HeadCounts(key, r.journal);
  }
}
