/** The files behind a logger: the current log, its numbered backups and the chain-state file;
    the order in which readers visit them; and rotation (internal/eventlog/event.go,
    internal/eventlog/integrity.go). */
module LogDisk {
  import opened Wire
  import opened Chain
  import opened VerifyLog
  import opened Seqs

  /** Backup number to its lines; a higher number is older.  Readers ignore number 0. */
  type Backups = map<nat, seq<string>>

  /** `current` is None while the log file does not exist, `state` while the state file is
      missing or unreadable. */
  datatype Disk = Disk(backups: Backups, current: Option<seq<string>>, state: Option<ChainState>)
  {
    function Current(): seq<string> {
      if current.Some? then current.value else []
    }
  }

  const EMPTY_DISK := Disk(map[], None, None)

  // ---------------------------------------------------------------- reading order

  lemma {:induction false} MaxExists(s: set<nat>)
    requires s != {}
    ensures exists m :: m in s && forall k :: k in s ==> k <= m
  {
    var x :| x in s;
    if s != {x} {
      MaxExists(s - {x});
      var m :| m in s - {x} && forall k :: k in s - {x} ==> k <= m;
      assert forall k :: k in s ==> k == x || k in s - {x};
      assert forall k :: k in s ==> k <= if m < x then x else m;
    }
  }

  function Max(s: set<nat>): (m: nat)
    requires s != {}
    ensures m in s && forall k :: k in s ==> k <= m
  {
    MaxExists(s);
    var m :| m in s && forall k :: k in s ==> k <= m;
    m
  }

  /** The numbers, highest (oldest file) first. */
  function Descending(s: set<nat>): seq<nat> {
    if s == {} then [] else [Max(s)] + Descending(s - {Max(s)})
  }

  function Numbered(b: Backups): set<nat> {
    set k | k in b && k > 0
  }

  function FilesInOrder(b: Backups, order: seq<nat>): seq<LogFile>
    requires forall k :: k in order ==> k in b
  {
    seq(|order|, i requires 0 <= i < |order| => LogFile(b[order[i]], false))
  }

  lemma {:induction false} DescendingMembers(s: set<nat>)
    ensures forall k :: k in Descending(s) <==> k in s
  {
    if s != {} {
      DescendingMembers(s - {Max(s)});
    }
  }

  /** Oldest backup first, the current file last. */
  function RotatedFiles(d: Disk): seq<LogFile> {
    DescendingMembers(Numbered(d.backups));
    FilesInOrder(d.backups, Descending(Numbered(d.backups))) +
    if d.current.Some? then [LogFile(d.current.value, false)] else []
  }

  /** The lines of backups `lo` to `hi - 1`, highest number first. */
  function Down(b: Backups, lo: nat, hi: nat): seq<string>
    decreases hi
  {
    if hi <= lo then [] else (if hi - 1 in b then b[hi - 1] else []) + Down(b, lo, hi - 1)
  }

  /** One more than the highest backup number. */
  function Bound(b: Backups): (n: nat)
    ensures n > 0 && forall k :: k in b ==> k < n
  {
    if b.Keys == {} then 1 else Max(b.Keys) + 1
  }

  /** All lines on disk, oldest first. */
  function History(d: Disk): seq<string> {
    Down(d.backups, 1, Bound(d.backups)) + d.Current()
  }

  lemma {:induction false} FlattenSplit(a: seq<LogFile>, b: seq<LogFile>)
    ensures Flatten(a + b) == Flatten(a) + Flatten(b)
  {
    if b == [] {
      assert a + b == a;
    } else {
      assert (a + b)[..|a + b| - 1] == a + b[..|b| - 1];
      FlattenSplit(a, b[..|b| - 1]);
    }
  }

  lemma DescendingFirst(s: set<nat>, m: nat)
    requires m in s && forall k :: k in s ==> k <= m
    ensures Descending(s) == [m] + Descending(s - {m})
  {
    assert Max(s) == m;
  }

  lemma FilesCons(b: Backups, k: nat, order: seq<nat>)
    requires k in b && forall j :: j in order ==> j in b
    ensures Flatten(FilesInOrder(b, [k] + order)) == b[k] + Flatten(FilesInOrder(b, order))
  {
    var first := [LogFile(b[k], false)];
    assert FilesInOrder(b, [k] + order) == first + FilesInOrder(b, order);
    FlattenSplit(first, FilesInOrder(b, order));
    assert first[..0] == [] && Flatten(first) == b[k];
  }

  /** The numbers of the backups younger than `hi`. */
  function Below(b: Backups, hi: nat): set<nat> {
    set k | k in b && 0 < k < hi
  }

  lemma BelowStep(b: Backups, hi: nat)
    requires hi > 0
    ensures hi in b ==> Descending(Below(b, hi + 1)) == [hi] + Descending(Below(b, hi))
    ensures hi !in b ==> Below(b, hi + 1) == Below(b, hi)
  {
    if hi in b {
      assert Below(b, hi + 1) - {hi} == Below(b, hi);
      DescendingFirst(Below(b, hi + 1), hi);
    }
  }

  lemma {:induction false} DescendingFlat(b: Backups, hi: nat)
    requires hi > 0
    ensures forall k :: k in Descending(Below(b, hi)) ==> k in b
    ensures Flatten(FilesInOrder(b, Descending(Below(b, hi)))) == Down(b, 1, hi)
    decreases hi
  {
    DescendingMembers(Below(b, hi));
    if hi > 1 {
      DescendingFlat(b, hi - 1);
      BelowStep(b, hi - 1);
      if hi - 1 in b {
        FilesCons(b, hi - 1, Descending(Below(b, hi - 1)));
      }
    } else {
      assert Below(b, hi) == {};
      assert FilesInOrder(b, Descending(Below(b, hi))) == [];
    }
  }

  lemma FlatThenLast(files: seq<LogFile>, d: Disk)
    ensures Flatten(files + if d.current.Some? then [LogFile(d.current.value, false)] else [])
            == Flatten(files) + d.Current()
  {
    if d.current.Some? {
      var last := [LogFile(d.current.value, false)];
      FlattenSplit(files, last);
      assert last[..0] == [] && Flatten(last) == d.current.value;
    } else {
      assert files + [] == files;
    }
  }

  lemma NumberedBelow(b: Backups)
    ensures Numbered(b) == Below(b, Bound(b))
  {
  }

  /** Reading the files in their sorted order is reading the history. */
  lemma FilesAreHistory(d: Disk)
    ensures Flatten(RotatedFiles(d)) == History(d)
    ensures Untorn(RotatedFiles(d))
  {
    NumberedBelow(d.backups);
    DescendingFlat(d.backups, Bound(d.backups));
    FlatThenLast(FilesInOrder(d.backups, Descending(Numbered(d.backups))), d);
  }

  lemma HistoryIsDown(d: Disk, n: nat)
    requires n > 0 && forall k :: k in d.backups ==> k < n
    ensures History(d) == Down(d.backups, 1, n) + d.Current()
  {
    DownBound(d.backups, 1, n);
  }

  /** Any bound on the backup numbers will do. */
  lemma DownBound(b: Backups, lo: nat, n: nat)
    requires forall k :: k in b ==> k < n
    ensures Down(b, lo, n) == Down(b, lo, Bound(b))
  {
    var m := Bound(b);
    if m <= n {
      if lo <= m {
        DownSplit(b, lo, m, n);
        DownEmpty(b, m, n);
      } else {
        DownEmpty(b, lo, n);
      }
    } else {
      if lo <= n {
        DownSplit(b, lo, n, m);
        DownEmpty(b, n, m);
      } else {
        DownEmpty(b, lo, m);
      }
    }
  }

  // ---------------------------------------------------------------- rotation

  function KeepCount(maxBackups: int): nat {
    if maxBackups <= 0 then 1 else maxBackups
  }

  function Get(b: Backups, k: int): Option<seq<string>> {
    if k >= 0 && k in b then Some(b[k]) else None
  }

  /** The renames `i` to `i+1`, `i-1` to `i`, ..., `1` to `2`; none finds its target taken. */
  function ShiftUp(b: Backups, i: nat): Backups
    requires i + 1 !in b
    decreases i
  {
    if i == 0 then b else ShiftUp(if i in b then (b - {i})[i + 1 := b[i]] else b, i - 1)
  }

  lemma {:induction false} ShiftUpMeaning(b: Backups, i: nat, k: nat)
    requires i + 1 !in b
    ensures Get(ShiftUp(b, i), k) == if k == 0 || k > i + 1 then Get(b, k) else if k == 1 then None else Get(b, k - 1)
    decreases i
  {
    if i > 0 {
      ShiftUpMeaning(if i in b then (b - {i})[i + 1 := b[i]] else b, i - 1, k);
    }
  }

  /** The backups once number `mb` is deleted and the younger ones have moved up. */
  function Shifted(b: Backups, mb: nat): Backups
    requires mb >= 1
  {
    ShiftUp(b - {mb}, mb - 1)
  }

  lemma ShiftedMeaning(b: Backups, mb: nat, k: nat)
    requires mb >= 1
    ensures Get(Shifted(b, mb), k) == if k == 0 || k > mb then Get(b, k) else if k == 1 then None else Get(b, k - 1)
  {
    ShiftUpMeaning(b - {mb}, mb - 1, k);
  }

  lemma {:induction false} DownSplit(b: Backups, lo: nat, mid: nat, hi: nat)
    requires lo <= mid <= hi
    ensures Down(b, lo, hi) == Down(b, mid, hi) + Down(b, lo, mid)
    decreases hi
  {
    if mid < hi {
      DownSplit(b, lo, mid, hi - 1);
    }
  }

  lemma {:induction false} DownAgrees(b: Backups, c: Backups, lo: nat, hi: nat)
    requires forall k :: lo <= k < hi ==> Get(b, k) == Get(c, k)
    ensures Down(b, lo, hi) == Down(c, lo, hi)
    decreases hi
  {
    if lo < hi {
      assert Get(b, hi - 1) == Get(c, hi - 1);
      DownAgrees(b, c, lo, hi - 1);
    }
  }

  lemma {:induction false} DownShift(b: Backups, mb: nat, hi: nat)
    requires 1 <= hi <= mb
    ensures Down(b, 1, hi) == Down(Shifted(b, mb), 2, hi + 1)
    decreases hi
  {
    if 1 < hi {
      ShiftedMeaning(b, mb, hi);
      DownShift(b, mb, hi - 1);
    }
  }

  lemma ShiftedFlat(b: Backups, mb: nat, n: nat)
    requires 1 <= mb < n
    ensures Down(Shifted(b, mb), 2, n) == Down(b, mb + 1, n) + Down(b, 1, mb)
  {
    var s := Shifted(b, mb);
    DownSplit(s, 2, mb + 1, n);
    forall k | mb + 1 <= k < n
      ensures Get(s, k) == Get(b, k)
    {
      ShiftedMeaning(b, mb, k);
    }
    DownAgrees(s, b, mb + 1, n);
    DownShift(b, mb, mb);
  }

  /** The backup that rotation deletes. */
  function Oldest(b: Backups, mb: nat): seq<string> {
    if mb in b then b[mb] else []
  }

  function Above(b: Backups, mb: nat): seq<string> {
    Down(b, mb + 1, Bound(b))
  }

  /** One rotation; `renameOk` says whether moving the current file aside succeeds. */
  function Rotate(d: Disk, mb: nat, renameOk: bool): Disk
    requires mb >= 1
  {
    var s := Shifted(d.backups, mb);
    if renameOk && d.current.Some? then d.(backups := s[1 := d.current.value], current := None) else d.(backups := s)
  }

  lemma HistoryParts(d: Disk, mb: nat)
    requires mb >= 1
    ensures History(d) == Above(d.backups, mb) + Oldest(d.backups, mb) + (Down(d.backups, 1, mb) + d.Current())
  {
    var b := d.backups;
    HistoryIsDown(d, Bound(b) + mb + 1);
    DownParts(b, mb, Bound(b) + mb + 1);
    Regroup(Above(b, mb), Oldest(b, mb), Down(b, 1, mb), d.Current());
  }

  lemma DownParts(b: Backups, mb: nat, n: nat)
    requires mb >= 1 && n == Bound(b) + mb + 1
    ensures Down(b, 1, n) == Above(b, mb) + (Oldest(b, mb) + Down(b, 1, mb))
  {
    DownSplit(b, 1, mb + 1, n);
    DownBound(b, mb + 1, n);
    assert Down(b, 1, mb + 1) == Oldest(b, mb) + Down(b, 1, mb);
  }

  lemma Regroup<T>(a: seq<T>, b: seq<T>, c: seq<T>, d: seq<T>)
    ensures (a + (b + c)) + d == a + b + (c + d)
  {
    Assoc(a, b, c);
    Assoc(a + b, c, d);
  }

  lemma {:induction false} DownEmpty(b: Backups, lo: nat, hi: nat)
    requires forall k :: lo <= k < hi ==> k !in b
    ensures Down(b, lo, hi) == []
    decreases hi
  {
    if lo < hi {
      DownEmpty(b, lo, hi - 1);
    }
  }

  /** A rotation, whether or not it manages to move the current file, takes away exactly the
      backup numbered `mb` and keeps everything else in order.  Without stale backups above `mb`
      what it takes away is the front of the history. */
  lemma RotationKeepsHistory(d: Disk, mb: nat, renameOk: bool)
    requires mb >= 1
    ensures History(d) == Above(d.backups, mb) + Oldest(d.backups, mb) + (Down(d.backups, 1, mb) + d.Current())
    ensures History(Rotate(d, mb, renameOk)) == Above(d.backups, mb) + (Down(d.backups, 1, mb) + d.Current())
    ensures (forall k :: k in d.backups ==> k <= mb) ==> Above(d.backups, mb) == []
  {
    var b := d.backups;
    HistoryParts(d, mb);
    RotatedHistory(d, mb, renameOk, Bound(b) + mb + 1);
    DownBound(b, mb + 1, Bound(b) + mb + 1);
    if forall k :: k in b ==> k <= mb {
      DownEmpty(b, mb + 1, Bound(b));
    }
  }

  lemma RotatedBelow(d: Disk, mb: nat, renameOk: bool, n: nat, k: nat)
    requires 1 <= mb < n && (forall k :: k in d.backups ==> k < n)
    requires k in Rotate(d, mb, renameOk).backups
    ensures k < n
  {
    ShiftedMeaning(d.backups, mb, k);
    assert Get(Shifted(d.backups, mb), k).Some? || k == 1;
  }

  lemma RotatedDown(d: Disk, mb: nat, renameOk: bool, n: nat)
    requires 1 <= mb < n
    ensures var r := Rotate(d, mb, renameOk);
            Down(r.backups, 1, n) + r.Current() == Down(d.backups, mb + 1, n) + (Down(d.backups, 1, mb) + d.Current())
  {
    var b, r := d.backups, Rotate(d, mb, renameOk);
    var s := Shifted(b, mb);
    DownSplit(r.backups, 1, 2, n);
    DownAgrees(r.backups, s, 2, n);
    ShiftedFlat(b, mb, n);
    ShiftedMeaning(b, mb, 1);
    assert Get(s, 1) == None;
    var first := if 1 in r.backups then r.backups[1] else [];
    assert Down(r.backups, 1, 2) == first + Down(r.backups, 1, 1) == first;
    assert first + r.Current() == d.Current();
    Assoc(Down(b, mb + 1, n) + Down(b, 1, mb), first, r.Current());
    Assoc(Down(b, mb + 1, n), Down(b, 1, mb), first + r.Current());
  }

  lemma RotatedHistory(d: Disk, mb: nat, renameOk: bool, n: nat)
    requires 1 <= mb < n && forall k :: k in d.backups ==> k < n
    ensures History(Rotate(d, mb, renameOk)) == Down(d.backups, mb + 1, n) + (Down(d.backups, 1, mb) + d.Current())
  {
    var r := Rotate(d, mb, renameOk);
    forall k | k in r.backups
      ensures k < n
    {
      RotatedBelow(d, mb, renameOk, n, k);
    }
    HistoryIsDown(r, n);
    RotatedDown(d, mb, renameOk, n);
  }
}
