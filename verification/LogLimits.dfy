/** When the logger rotates, and what bounds that puts on its files (internal/eventlog/event.go). */
module LogLimits {
  import opened Wire
  import opened Chain
  import opened VerifyLog
  import opened LogDisk
  import opened Journal
  import opened LogWriter
  import opened LogRun

  // ---------------------------------------------------------------- when a write rotates

  /** What a file of these lines holds. */
  function FileText(lines: seq<string>): string {
    if lines == [] then "" else FileText(lines[..|lines| - 1]) + lines[|lines| - 1] + "\n"
  }

  lemma {:induction false} TextSize(lines: seq<string>)
    ensures |FileText(lines)| == Size(lines)
  {
    if lines != [] {
      TextSize(lines[..|lines| - 1]);
    }
  }

  /** With the new line the current file would be longer than a positive limit. */
  predicate Overflows(d: Disk, maxBytes: int, raw: string) {
    maxBytes > 0 && d.current.Some? && |FileText(d.current.value)| + |raw + "\n"| > maxBytes
  }

  /** Where file `k` came from once a disk has rotated with `maxBackups` backups allowed. */
  ghost predicate RotatedFile(d: Disk, d': Disk, maxBackups: int, moved: bool, k: nat) {
    var last := if maxBackups <= 0 then 1 else maxBackups;
    Get(d'.backups, k) == if k == 0 || k > last then Get(d.backups, k)
                          else if k > 1 then Get(d.backups, k - 1)
                          else if moved then d.current else None
  }

  /** A write that finds room leaves the backups alone and extends the current file; one that does
      not moves every file up by one, the one with the highest number allowed out of the way, and
      starts a new current file, or fails if the current file cannot be moved. */
  lemma WriteRotatesIff(p: Primitives, key: string, w: World, e: Event, freshID: string, fx: Effects)
    requires Prepare(p, key, w, e, freshID).Some?
    ensures var raw := Prepare(p, key, w, e, freshID).value.raw;
            var d, d' := w.disk, WriteStep(p, key, w, e, freshID, fx).disk;
            if Overflows(d, w.config.maxBytes, raw) then
              && (forall k: nat :: RotatedFile(d, d', w.config.maxBackups, fx.moved, k))
              && d'.current == if !fx.moved then d.current else if fx.appended then Some([raw]) else None
            else
              && d'.backups == d.backups
              && d'.current == if fx.appended then Some(d.Current() + [raw]) else d.current
  {
    var x := Prepare(p, key, w, e, freshID).value;
    CommitRotatesIff(w, x.raw, x.next, fx);
  }

  lemma CommitRotatesIff(w: World, raw: string, next: ChainState, fx: Effects)
    ensures var d, d' := w.disk, Commit(w, raw, next, fx).disk;
            if Overflows(d, w.config.maxBytes, raw) then
              && (forall k: nat :: RotatedFile(d, d', w.config.maxBackups, fx.moved, k))
              && d'.current == if !fx.moved then d.current else if fx.appended then Some([raw]) else None
            else
              && d'.backups == d.backups
              && d'.current == if fx.appended then Some(d.Current() + [raw]) else d.current
  {
    var d, d' := Saved(w, next, fx), Commit(w, raw, next, fx).disk;
    assert d.backups == w.disk.backups && d.current == w.disk.current;
    if d.current.Some? {
      TextSize(d.current.value);
    }
    assert Overflows(w.disk, w.config.maxBytes, raw) <==> NeedsRotation(d, w.config.maxBytes, |raw| + 1);
    assert [] + [raw] == [raw];
    if NeedsRotation(d, w.config.maxBytes, |raw| + 1) {
      forall k: nat
        ensures RotatedFile(w.disk, d', w.config.maxBackups, fx.moved, k)
      {
        ShiftedMeaning(d.backups, KeepCount(w.config.maxBackups), k);
      }
    }
  }

  // ---------------------------------------------------------------- bounds on the disk

  /** At most `mb` backups, numbered 1 to `mb`, and no file over `limit` bytes. */
  ghost predicate Within(d: Disk, mb: nat, limit: nat) {
    && (forall k :: k in d.backups ==> 1 <= k <= mb && Size(d.backups[k]) <= limit)
    && Size(d.Current()) <= limit
  }

  lemma RotateWithin(d: Disk, mb: nat, limit: nat, moved: bool)
    requires mb >= 1 && Within(d, mb, limit)
    ensures Within(Rotate(d, mb, moved), mb, limit)
  {
    var r := Rotate(d, mb, moved);
    forall k | k in r.backups
      ensures 1 <= k <= mb && Size(r.backups[k]) <= limit
    {
      ShiftedMeaning(d.backups, mb, k);
      assert Get(Shifted(d.backups, mb), k) == Get(r.backups, k) || k == 1;
      assert k > 1 ==> Get(d.backups, k - 1) == Get(r.backups, k) || Get(d.backups, k) == Get(r.backups, k);
    }
  }

  lemma PlacedWithin(d: Disk, config: Config, raw: string, fx: Effects, limit: nat)
    requires 0 < config.maxBytes <= limit && |raw| + 1 <= limit
    requires Within(d, KeepCount(config.maxBackups), limit)
    ensures Within(Placed(d, config, raw, fx), KeepCount(config.maxBackups), limit)
  {
    var mb := KeepCount(config.maxBackups);
    if NeedsRotation(d, config.maxBytes, |raw| + 1) {
      RotateWithin(d, mb, limit, fx.moved);
    }
    var rotated := RotatedDisk(d, config, |raw| + 1, fx.moved);
    assert (rotated.Current() + [raw])[..|rotated.Current()|] == rotated.Current();
    assert Size(rotated.Current() + [raw]) == Size(rotated.Current()) + |raw| + 1;
  }

  /** The run never changes its limits. */
  predicate SameLimits(config: Config, ops: seq<Op>) {
    forall i :: 0 <= i < |ops| && ops[i].Restart? ==>
      ops[i].config.maxBytes == config.maxBytes && KeepCount(ops[i].config.maxBackups) == KeepCount(config.maxBackups)
  }

  /** Whatever effects fail, a run with fixed limits keeps at most `KeepCount` backups beside the
      current file, each no larger than the byte limit or the longest line. */
  lemma {:induction false} RunStaysWithin(p: Primitives, key: string, config: Config, ops: seq<Op>, limit: nat)
    requires SameLimits(config, ops)
    requires 0 < config.maxBytes <= limit
    requires var js := RunOf(p, key, config, ops).journal; forall i :: 0 <= i < |js| ==> |js[i].raw| + 1 <= limit
    ensures var r := RunOf(p, key, config, ops);
            && Within(r.world.disk, KeepCount(config.maxBackups), limit)
            && |r.world.disk.backups| <= KeepCount(config.maxBackups)
            && r.world.config.maxBytes == config.maxBytes
            && KeepCount(r.world.config.maxBackups) == KeepCount(config.maxBackups)
  {
    var r := RunOf(p, key, config, ops);
    if ops != [] {
      var q, op := RunOf(p, key, config, ops[..|ops| - 1]), ops[|ops| - 1];
      assert q.journal <= r.journal;
      RunStaysWithin(p, key, config, ops[..|ops| - 1], limit);
      if op.Write? && Prepare(p, key, q.world, op.e, op.freshID).Some? {
        var x := Prepare(p, key, q.world, op.e, op.freshID).value;
        assert r == Record(q, EntryOf(q, x), x.next, op.fx) && r.journal[|q.journal|] == EntryOf(q, x);
        PlacedWithin(Saved(q.world, x.next, op.fx), q.world.config, x.raw, op.fx, limit);
      }
    }
    NumbersFit(r.world.disk.backups.Keys, KeepCount(config.maxBackups));
  }

  lemma {:induction false} NumbersFit(s: set<nat>, n: nat)
    requires forall k :: k in s ==> 1 <= k <= n
    ensures |s| <= n
    decreases n
  {
    if n == 0 {
      assert s == {};
    } else {
      NumbersFit(s - {n}, n - 1);
    }
  }

  // ---------------------------------------------------------------- nothing is dropped early

  /** All lines ever written, landed or not. */
  function Written(js: seq<Entry>): seq<string> {
    Lines(js, Everything(|js|))
  }

  lemma WrittenSnoc(js: seq<Entry>, x: Entry)
    ensures Written(js + [x]) == Written(js) + [x.raw]
    ensures |FileText(Written(js + [x]))| == |FileText(Written(js))| + |x.raw| + 1
  {
    assert Written(js + [x])[..|js|] == Written(js);
  }

  predicate AllAppend(ops: seq<Op>) {
    forall i :: 0 <= i < |ops| && ops[i].Write? ==> ops[i].fx.appended
  }

  /** No backup yet, and no more in the current file than was written. */
  ghost predicate OneFile(r: Run, maxBytes: int) {
    && r.world.disk.backups == map[] && r.world.config.maxBytes == maxBytes
    && |FileText(r.world.disk.Current())| <= |FileText(Written(r.journal))|
  }

  /** Every line ever written is there. */
  ghost predicate Complete(r: Run) {
    r.kept == Everything(|r.journal|) && r.world.disk.Current() == Written(r.journal)
  }

  /** As long as everything written would fit into one file, there is only one, and no line that
      landed is gone. */
  lemma {:induction false} NothingDroppedEarly(p: Primitives, key: string, config: Config, ops: seq<Op>)
    requires SameLimits(config, ops)
    requires config.maxBytes <= 0 ||
             |FileText(Written(RunOf(p, key, config, ops).journal))| <= config.maxBytes
    ensures OneFile(RunOf(p, key, config, ops), config.maxBytes)
    ensures AllAppend(ops) ==> Complete(RunOf(p, key, config, ops))
  {
    if ops != [] {
      var q, op := RunOf(p, key, config, ops[..|ops| - 1]), ops[|ops| - 1];
      TextGrows(p, key, q, op);
      NothingDroppedEarly(p, key, config, ops[..|ops| - 1]);
      EarlyStep(p, key, q, op, config);
    }
  }

  lemma TextGrows(p: Primitives, key: string, r: Run, op: Op)
    ensures |FileText(Written(r.journal))| <= |FileText(Written(Step(p, key, r, op).journal))|
  {
    if op.Write? && Prepare(p, key, r.world, op.e, op.freshID).Some? {
      WrittenSnoc(r.journal, EntryOf(r, Prepare(p, key, r.world, op.e, op.freshID).value));
    }
  }

  lemma EarlyStep(p: Primitives, key: string, r: Run, op: Op, config: Config)
    requires OneFile(r, config.maxBytes) && (op.Restart? ==> op.config.maxBytes == config.maxBytes)
    requires config.maxBytes <= 0 || |FileText(Written(Step(p, key, r, op).journal))| <= config.maxBytes
    ensures OneFile(Step(p, key, r, op), config.maxBytes)
    ensures Complete(r) && (op.Write? ==> op.fx.appended) ==> Complete(Step(p, key, r, op))
  {
    if op.Write? && Prepare(p, key, r.world, op.e, op.freshID).Some? {
      var x := Prepare(p, key, r.world, op.e, op.freshID).value;
      RoomLeft(r, EntryOf(r, x), x.next, op.fx);
    }
  }

  lemma RoomLeft(r: Run, x: Entry, next: ChainState, fx: Effects)
    requires OneFile(r, r.world.config.maxBytes)
    requires r.world.config.maxBytes <= 0 || |FileText(Written(r.journal + [x]))| <= r.world.config.maxBytes
    ensures OneFile(Record(r, x, next, fx), r.world.config.maxBytes)
    ensures Complete(r) && fx.appended ==> Complete(Record(r, x, next, fx))
  {
    var d, r' := r.world.disk, Record(r, x, next, fx);
    WrittenSnoc(r.journal, x);
    CommitRotatesIff(r.world, x.raw, next, fx);
    assert !Overflows(d, r.world.config.maxBytes, x.raw);
    assert (d.Current() + [x.raw])[..|d.Current()|] == d.Current();
    assert !NeedsRotation(Saved(r.world, next, fx), r.world.config.maxBytes, |x.raw| + 1) by {
      TextSize(d.Current());
    }
    assert r'.kept == r.kept + if fx.appended then [|r.journal|] else [];
    assert Everything(|r.journal|) + [|r.journal|] == Everything(|r.journal| + 1);
  }
}
