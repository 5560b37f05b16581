/** Replaying the chain over a set of log files (internal/eventlog/integrity.go), and what a
    replay means line by line. */
module VerifyLog {
  import opened Wire
  import opened Chain
  import opened Seqs

  /** A log file as the streaming JSON decoder sees it: the values it yields, and whether what
      follows the last one is not JSON.  A file that cannot be opened is reported as one that is
      torn from the start: `LogFile([], true)`. */
  datatype LogFile = LogFile(lines: seq<string>, torn: bool)

  datatype IssueKind = Malformed | PrevHashBreak | HashMismatch | HmacMismatch

  datatype Issue = Issue(line: nat, seqNo: nat, kind: IssueKind, expected: string, actual: string)

  /** A run of lines outside the chain; line numbers start at one and run on across files. */
  datatype Segment = Segment(fromLine: nat, toLine: nat, count: nat)

  datatype Scan = Scan(
    prevHash: string,
    currentSeq: nat,
    legacyOpen: Option<Segment>,
    line: nat,
    chainLines: nat,
    legacyLines: nat,
    segments: seq<Segment>,
    issues: seq<Issue>)

  const START := Scan("", 0, None, 0, 0, 0, [], [])

  datatype Report = Report(
    ok: bool,
    lastSeq: nat,
    lastHash: string,
    linesScanned: nat,
    chainLines: nat,
    legacyLines: nat,
    segments: seq<Segment>,
    issues: seq<Issue>)

  // ---------------------------------------------------------------- the replay

  function ExtendLegacy(open: Option<Segment>, line: nat): Option<Segment> {
    match open
    case Some(s) => Some(s.(toLine := line, count := s.count + 1))
    case None => Some(Segment(line, line, 1))
  }

  /** What is wrong with chain event `e` when its predecessor's hash is `prev`. */
  function EventIssues(p: Primitives, key: string, prev: string, e: Event, line: nat): seq<Issue> {
    (if e.prevHash != prev then [Issue(line, e.seqNo, PrevHashBreak, prev, e.prevHash)] else []) +
    (match RecomputeHash(p, e, prev)
     case None => [Issue(line, e.seqNo, Malformed, "", "")]
     case Some(expected) => if expected != e.hash then [Issue(line, e.seqNo, HashMismatch, expected, e.hash)] else []) +
    (if key != "" && p.mac(key, e.hash) != e.hmac
     then [Issue(line, e.seqNo, HmacMismatch, p.mac(key, e.hash), e.hmac)] else [])
  }

  function ScanLine(p: Primitives, key: string, s: Scan, raw: string): Scan {
    var line := s.line + 1;
    match p.unmarshal(raw)
    case None =>
      s.(line := line, issues := s.issues + [Issue(line, 0, Malformed, "", "")],
         legacyOpen := ExtendLegacy(s.legacyOpen, line))
    case Some(e) =>
      if e.integrityVersion != INTEGRITY_VERSION then
        s.(line := line, legacyLines := s.legacyLines + 1, legacyOpen := ExtendLegacy(s.legacyOpen, line))
      else
        Scan(e.hash, e.seqNo, None, line, s.chainLines + 1, s.legacyLines, Segments(s),
             s.issues + EventIssues(p, key, s.prevHash, e, line))
  }

  /** The closed segments, and the open one if there is one. */
  function Segments(s: Scan): seq<Segment> {
    s.segments + if s.legacyOpen.Some? then [s.legacyOpen.value] else []
  }

  function ScanLines(p: Primitives, key: string, s: Scan, lines: seq<string>): Scan {
    if lines == [] then s
    else ScanLine(p, key, ScanLines(p, key, s, lines[..|lines| - 1]), lines[|lines| - 1])
  }

  function ScanFile(p: Primitives, key: string, s: Scan, file: LogFile): Scan {
    var t := ScanLines(p, key, s, file.lines);
    if file.torn then t.(issues := t.issues + [Issue(t.line + 1, 0, Malformed, "", "")]) else t
  }

  function ScanFiles(p: Primitives, key: string, s: Scan, files: seq<LogFile>): Scan {
    if files == [] then s
    else ScanFile(p, key, ScanFiles(p, key, s, files[..|files| - 1]), files[|files| - 1])
  }

  function ReportOf(s: Scan): Report {
    Report(s.issues == [], s.currentSeq, s.prevHash, s.line, s.chainLines, s.legacyLines, Segments(s), s.issues)
  }

  /** The whole verification, files in chronological order. */
  function Verification(p: Primitives, key: string, files: seq<LogFile>): Report {
    ReportOf(ScanFiles(p, key, START, files))
  }

  method CheckEvent(p: Primitives, key: string, prevHash: string, e: Event, line: nat) returns (found: seq<Issue>)
    ensures found == EventIssues(p, key, prevHash, e, line)
  {
    found := [];
    if e.prevHash != prevHash {
      found := found + [Issue(line, e.seqNo, PrevHashBreak, prevHash, e.prevHash)];
    }
    match RecomputeHash(p, e, prevHash) {
      case None => found := found + [Issue(line, e.seqNo, Malformed, "", "")];
      case Some(expected) =>
        if expected != e.hash {
          found := found + [Issue(line, e.seqNo, HashMismatch, expected, e.hash)];
        }
    }
    if key != "" && p.mac(key, e.hash) != e.hmac {
      found := found + [Issue(line, e.seqNo, HmacMismatch, p.mac(key, e.hash), e.hmac)];
    }
  }

  method VerifyLine(p: Primitives, key: string, before: Scan, raw: string) returns (after: Scan)
    ensures after == ScanLine(p, key, before, raw)
  {
    var line := before.line + 1;
    match p.unmarshal(raw) {
      case None =>
        after := before.(line := line, issues := before.issues + [Issue(line, 0, Malformed, "", "")],
                         legacyOpen := ExtendLegacy(before.legacyOpen, line));
      case Some(e) =>
        if e.integrityVersion != INTEGRITY_VERSION {
          after := before.(line := line, legacyLines := before.legacyLines + 1,
                           legacyOpen := ExtendLegacy(before.legacyOpen, line));
          return;
        }
        var segments := before.segments;
        if before.legacyOpen.Some? {
          segments := segments + [before.legacyOpen.value];
        }
        var found := CheckEvent(p, key, before.prevHash, e, line);
        after := Scan(e.hash, e.seqNo, None, line, before.chainLines + 1, before.legacyLines, segments,
                      before.issues + found);
    }
  }

  method VerifyOneFile(p: Primitives, key: string, file: LogFile, before: Scan) returns (after: Scan)
    ensures after == ScanFile(p, key, before, file)
  {
    after := before;
    for i := 0 to |file.lines|
      invariant after == ScanLines(p, key, before, file.lines[..i])
    {
      assert file.lines[..i + 1][..i] == file.lines[..i];
      after := VerifyLine(p, key, after, file.lines[i]);
    }
    assert file.lines[..|file.lines|] == file.lines;
    if file.torn {
      after := after.(issues := after.issues + [Issue(after.line + 1, 0, Malformed, "", "")]);
    }
  }

  method Verify(p: Primitives, key: string, files: seq<LogFile>) returns (report: Report)
    ensures report == Verification(p, key, files)
  {
    var scan := START;
    for i := 0 to |files|
      invariant scan == ScanFiles(p, key, START, files[..i])
    {
      assert files[..i + 1][..i] == files[..i];
      scan := VerifyOneFile(p, key, files[i], scan);
    }
    assert files[..|files|] == files;
    report := ReportOf(scan);
  }

  // ---------------------------------------------------------------- what a replay means

  predicate IsChain(p: Primitives, raw: string) {
    p.unmarshal(raw).Some? && p.unmarshal(raw).value.integrityVersion == INTEGRITY_VERSION
  }

  /** The decoded chain event on a line. */
  function At(p: Primitives, raw: string): Event
    requires IsChain(p, raw)
  {
    p.unmarshal(raw).value
  }

  /** The chain events of a log, in order. */
  function ChainEvents(p: Primitives, lines: seq<string>): seq<Event> {
    if lines == [] then [] else
    ChainEvents(p, lines[..|lines| - 1]) + if IsChain(p, lines[|lines| - 1]) then [At(p, lines[|lines| - 1])] else []
  }

  /** Lines that are events but not chain events. */
  function LegacyCount(p: Primitives, lines: seq<string>): nat {
    if lines == [] then 0 else
    var raw := lines[|lines| - 1];
    LegacyCount(p, lines[..|lines| - 1]) + if p.unmarshal(raw).Some? && !IsChain(p, raw) then 1 else 0
  }

  /** The hash of the last chain line; empty when there is none. */
  function LastHash(p: Primitives, lines: seq<string>): string {
    var es := ChainEvents(p, lines);
    if es == [] then "" else es[|es| - 1].hash
  }

  /** What the verifier reports about line `i`, in terms of the lines before it. */
  function IssuesAt(p: Primitives, key: string, lines: seq<string>, i: nat): seq<Issue>
    requires i < |lines|
  {
    if p.unmarshal(lines[i]).None? then [Issue(i + 1, 0, Malformed, "", "")]
    else if !IsChain(p, lines[i]) then []
    else EventIssues(p, key, LastHash(p, lines[..i]), At(p, lines[i]), i + 1)
  }

  function Untorn(files: seq<LogFile>): bool {
    forall i :: 0 <= i < |files| ==> !files[i].torn
  }

  function Flatten(files: seq<LogFile>): seq<string> {
    if files == [] then [] else Flatten(files[..|files| - 1]) + files[|files| - 1].lines
  }

  lemma {:induction false} ScanLinesSplit(p: Primitives, key: string, s: Scan, a: seq<string>, b: seq<string>)
    ensures ScanLines(p, key, s, a + b) == ScanLines(p, key, ScanLines(p, key, s, a), b)
  {
    if b == [] {
      assert a + b == a;
    } else {
      var n := |b| - 1;
      assert (a + b)[..|a + b| - 1] == a + b[..n];
      ScanLinesSplit(p, key, s, a, b[..n]);
    }
  }

  /** File boundaries are invisible: without torn tails, the replay is that of the concatenation. */
  lemma {:induction false} ScanFilesFlat(p: Primitives, key: string, files: seq<LogFile>)
    requires Untorn(files)
    ensures ScanFiles(p, key, START, files) == ScanLines(p, key, START, Flatten(files))
  {
    if files != [] {
      var n := |files| - 1;
      ScanFilesFlat(p, key, files[..n]);
      ScanLinesSplit(p, key, START, Flatten(files[..n]), files[n].lines);
    }
  }

  lemma {:induction false} IssuesGrow(p: Primitives, key: string, s: Scan, lines: seq<string>)
    ensures |ScanLines(p, key, s, lines).issues| >= |s.issues|
  {
    if lines != [] {
      IssuesGrow(p, key, s, lines[..|lines| - 1]);
    }
  }

  /** A torn file anywhere leaves an issue behind. */
  lemma {:induction false} TornIsReported(p: Primitives, key: string, files: seq<LogFile>)
    requires !Untorn(files)
    ensures ScanFiles(p, key, START, files).issues != []
  {
    var n := |files| - 1;
    var before := ScanFiles(p, key, START, files[..n]);
    IssuesGrow(p, key, before, files[n].lines);
    if !files[n].torn {
      assert exists i :: 0 <= i < n && files[..n][i].torn;
      TornIsReported(p, key, files[..n]);
    }
  }

  /** The issues of all lines, in line order. */
  function AllIssues(p: Primitives, key: string, lines: seq<string>): seq<Issue> {
    if lines == [] then []
    else AllIssues(p, key, lines[..|lines| - 1]) + IssuesAt(p, key, lines, |lines| - 1)
  }

  /** A replay state, component by component, in terms of the lines alone: the running hash and
      sequence number are those of the last chain line, and the issues are exactly those of the
      single lines, in line order. */
  ghost predicate Means(p: Primitives, key: string, lines: seq<string>, s: Scan) {
    var es := ChainEvents(p, lines);
    && s.line == |lines|
    && s.prevHash == LastHash(p, lines)
    && s.currentSeq == (if es == [] then 0 else es[|es| - 1].seqNo)
    && s.chainLines == |es|
    && s.legacyLines == LegacyCount(p, lines)
    && s.issues == AllIssues(p, key, lines)
  }

  lemma MeansSnoc(p: Primitives, key: string, lines: seq<string>, s: Scan)
    requires lines != [] && Means(p, key, lines[..|lines| - 1], s)
    ensures Means(p, key, lines, ScanLine(p, key, s, lines[|lines| - 1]))
  {
    var n := |lines| - 1;
    var t := ScanLine(p, key, s, lines[n]);
    assert t.issues == s.issues + IssuesAt(p, key, lines, n);
  }

  lemma {:induction false} ScanMeaning(p: Primitives, key: string, lines: seq<string>)
    ensures Means(p, key, lines, ScanLines(p, key, START, lines))
  {
    if lines != [] {
      ScanMeaning(p, key, lines[..|lines| - 1]);
      MeansSnoc(p, key, lines, ScanLines(p, key, START, lines[..|lines| - 1]));
    }
  }

  lemma IssuesAtPrefix(p: Primitives, key: string, lines: seq<string>, n: nat, i: nat)
    requires i < n <= |lines|
    ensures IssuesAt(p, key, lines[..n], i) == IssuesAt(p, key, lines, i)
  {
    assert lines[..n][..i] == lines[..i];
  }

  /** No issue anywhere means no issue on any line. */
  lemma {:induction false} AllIssuesEmpty(p: Primitives, key: string, lines: seq<string>)
    ensures AllIssues(p, key, lines) == [] <==> forall i :: 0 <= i < |lines| ==> IssuesAt(p, key, lines, i) == []
  {
    if lines != [] {
      var n := |lines| - 1;
      AllIssuesEmpty(p, key, lines[..n]);
      forall i | 0 <= i < n
        ensures IssuesAt(p, key, lines[..n], i) == IssuesAt(p, key, lines, i)
      {
        IssuesAtPrefix(p, key, lines, n, i);
      }
    }
  }

  // ---------------------------------------------------------------- legacy segments

  ghost predicate IsRun(p: Primitives, lines: seq<string>, s: Segment) {
    && 1 <= s.fromLine <= s.toLine <= |lines|
    && s.count == s.toLine - s.fromLine + 1
    && (forall i :: s.fromLine - 1 <= i < s.toLine ==> !IsChain(p, lines[i]))
    && (s.fromLine > 1 ==> IsChain(p, lines[s.fromLine - 2]))
    && (s.toLine < |lines| ==> IsChain(p, lines[s.toLine]))
  }

  /** `segs` are the maximal runs of lines outside the chain, all of them, in order. */
  ghost predicate MaximalRuns(p: Primitives, lines: seq<string>, segs: seq<Segment>) {
    && (forall k :: 0 <= k < |segs| ==> IsRun(p, lines, segs[k]))
    && (forall k, l :: 0 <= k < l < |segs| ==> segs[k].toLine < segs[l].fromLine)
    && (forall i :: 0 <= i < |lines| && !IsChain(p, lines[i]) ==>
          Covered(segs, i))
  }

  ghost predicate Covered(segs: seq<Segment>, i: nat) {
    exists k :: 0 <= k < |segs| && segs[k].fromLine <= i + 1 <= segs[k].toLine
  }

  lemma CoverGrows(closed: seq<Segment>, open: Option<Segment>, grown: Segment, i: nat)
    requires Covered(closed + if open.Some? then [open.value] else [], i)
    requires open.Some? ==> grown.fromLine == open.value.fromLine && open.value.toLine <= grown.toLine
    ensures Covered(closed + [grown], i)
  {
    var before, after := closed + if open.Some? then [open.value] else [], closed + [grown];
    var k :| 0 <= k < |before| && before[k].fromLine <= i + 1 <= before[k].toLine;
    assert after[k].fromLine <= i + 1 <= after[k].toLine;
  }

  ghost predicate RunsSoFar(p: Primitives, lines: seq<string>, s: Scan) {
    && MaximalRuns(p, lines, Segments(s))
    && s.line == |lines|
    && (s.legacyOpen.Some? <==> lines != [] && !IsChain(p, lines[|lines| - 1]))
    && (s.legacyOpen.Some? ==> s.legacyOpen.value.toLine == |lines|)
  }

  /** A line that joins the open run, or starts one. */
  lemma RunsExtendLegacy(p: Primitives, lines: seq<string>, closed: seq<Segment>, open: Option<Segment>, raw: string)
    requires MaximalRuns(p, lines, closed + if open.Some? then [open.value] else [])
    requires open.Some? <==> lines != [] && !IsChain(p, lines[|lines| - 1])
    requires open.Some? ==> open.value.toLine == |lines|
    requires !IsChain(p, raw)
    ensures MaximalRuns(p, lines + [raw], closed + [ExtendLegacy(open, |lines| + 1).value])
  {
    var before := closed + if open.Some? then [open.value] else [];
    var m := |closed|;
    var grown := ExtendLegacy(open, |lines| + 1).value;
    var after := closed + [grown];
    assert forall k :: 0 <= k < m ==> before[k] == closed[k] == after[k];
    forall k | 0 <= k < m
      ensures IsRun(p, lines + [raw], closed[k]) && closed[k].toLine < grown.fromLine
    {
      assert IsRun(p, lines, before[k]);
      if open.Some? {
        assert before[m] == open.value && before[k].toLine < before[m].fromLine;
      }
    }
    if open.Some? {
      assert IsRun(p, lines, before[m]);
    }
    forall i | 0 <= i < |lines + [raw]| && !IsChain(p, (lines + [raw])[i])
      ensures Covered(after, i)
    {
      if i < |lines| {
        assert (lines + [raw])[i] == lines[i];
        assert Covered(before, i);
        CoverGrows(closed, open, grown, i);
      } else {
        assert after[m].fromLine <= i + 1 <= after[m].toLine;
      }
    }
  }

  lemma RunsExtendChain(p: Primitives, lines: seq<string>, segs: seq<Segment>, raw: string)
    requires MaximalRuns(p, lines, segs) && IsChain(p, raw)
    ensures MaximalRuns(p, lines + [raw], segs)
  {
    assert forall i :: 0 <= i < |lines| ==> (lines + [raw])[i] == lines[i];
  }

  lemma RunsStep(p: Primitives, key: string, lines: seq<string>, s: Scan, raw: string)
    requires RunsSoFar(p, lines, s)
    ensures RunsSoFar(p, lines + [raw], ScanLine(p, key, s, raw))
  {
    var t := ScanLine(p, key, s, raw);
    if IsChain(p, raw) {
      RunsExtendChain(p, lines, Segments(s), raw);
      assert Segments(t) == Segments(s);
    } else {
      RunsExtendLegacy(p, lines, s.segments, s.legacyOpen, raw);
      assert Segments(t) == s.segments + [ExtendLegacy(s.legacyOpen, |lines| + 1).value];
    }
  }

  /** The reported segments are exactly the maximal runs of lines outside the chain, counted
      across file boundaries. */
  lemma {:induction false} SegmentsAreMaximalRuns(p: Primitives, key: string, lines: seq<string>)
    ensures RunsSoFar(p, lines, ScanLines(p, key, START, lines))
  {
    if lines != [] {
      var n := |lines| - 1;
      SegmentsAreMaximalRuns(p, key, lines[..n]);
      RunsStep(p, key, lines[..n], ScanLines(p, key, START, lines[..n]), lines[n]);
      assert lines[..n] + [lines[n]] == lines;
    }
  }

  // ---------------------------------------------------------------- any list of files

  /** What the verifier reports about a line, by its position. */
  function LineIssues(p: Primitives, key: string, lines: seq<string>): nat -> seq<Issue> {
    (i: nat) => if i < |lines| then IssuesAt(p, key, lines, i) else []
  }

  /** The issues of lines `lo` up to `hi`, in line order. */
  function IssuesOver(p: Primitives, key: string, lines: seq<string>, lo: nat, hi: nat): seq<Issue>
    requires lo <= hi <= |lines|
  {
    Concat(LineIssues(p, key, lines), lo, hi)
  }

  /** What a set of files is to be blamed for: file after file the issues of its lines, each judged
      against all lines before it, and after a torn one its tail, numbered as the line it would be. */
  function FileIssues(p: Primitives, key: string, files: seq<LogFile>): seq<Issue> {
    if files == [] then [] else
    var n := |files| - 1;
    var before, lines := Flatten(files[..n]), Flatten(files);
    FileIssues(p, key, files[..n]) + IssuesOver(p, key, lines, |before|, |lines|) + TornIssue(files[n], |lines|)
  }

  /** The issue of a torn tail after `n` lines. */
  function TornIssue(file: LogFile, n: nat): seq<Issue> {
    if file.torn then [Issue(n + 1, 0, Malformed, "", "")] else []
  }

  lemma {:induction false} AllIssuesConcat(p: Primitives, key: string, lines: seq<string>, n: nat)
    requires n <= |lines|
    ensures AllIssues(p, key, lines[..n]) == Concat(LineIssues(p, key, lines), 0, n)
  {
    if n > 0 {
      AllIssuesConcat(p, key, lines, n - 1);
      assert lines[..n][..n - 1] == lines[..n - 1];
      IssuesAtPrefix(p, key, lines, n, n - 1);
    }
  }

  lemma IssuesSplit(p: Primitives, key: string, a: seq<string>, b: seq<string>)
    ensures AllIssues(p, key, a + b) == AllIssues(p, key, a) + IssuesOver(p, key, a + b, |a|, |a + b|)
  {
    var all := a + b;
    AllIssuesConcat(p, key, all, |a|);
    AllIssuesConcat(p, key, all, |all|);
    assert all[..|a|] == a && all[..|all|] == all;
    ConcatSplit(LineIssues(p, key, all), 0, |a|, |all|);
  }

  /** The replay never looks at the issues it has found. */
  lemma {:induction false} ScanIgnoresIssues(p: Primitives, key: string, s: Scan, found: seq<Issue>, lines: seq<string>)
    ensures ScanLines(p, key, s.(issues := found), lines) ==
            var t := ScanLines(p, key, s.(issues := []), lines); t.(issues := found + t.issues)
  {
    if lines == [] {
      assert found + [] == found;
    } else {
      var n := |lines| - 1;
      ScanIgnoresIssues(p, key, s, found, lines[..n]);
      LineIgnoresIssues(p, key, ScanLines(p, key, s.(issues := []), lines[..n]), found, lines[n]);
    }
  }

  lemma LineIgnoresIssues(p: Primitives, key: string, s: Scan, found: seq<Issue>, raw: string)
    ensures ScanLine(p, key, s.(issues := found + s.issues), raw) ==
            var t := ScanLine(p, key, s, raw); t.(issues := found + t.issues)
  {
  }

  /** One file read after others. */
  lemma FileAfterFiles(p: Primitives, key: string, found: seq<Issue>, a: seq<string>, b: seq<string>)
    ensures ScanLines(p, key, ScanLines(p, key, START, a).(issues := found), b) ==
            ScanLines(p, key, START, a + b).(issues := found + IssuesOver(p, key, a + b, |a|, |a + b|))
  {
    var s := ScanLines(p, key, START, a);
    var t := ScanLines(p, key, s.(issues := []), b);
    ScanIgnoresIssues(p, key, s, found, b);
    ScanIgnoresIssues(p, key, s, s.issues, b);
    assert s.(issues := s.issues) == s;
    ScanLinesSplit(p, key, START, a, b);
    ScanMeaning(p, key, a);
    ScanMeaning(p, key, a + b);
    IssuesSplit(p, key, a, b);
    SamePrefix(s.issues, t.issues, IssuesOver(p, key, a + b, |a|, |a + b|));
  }

  lemma SamePrefix<T>(a: seq<T>, x: seq<T>, y: seq<T>)
    requires a + x == a + y
    ensures x == y
  {
    assert (a + x)[|a|..] == x && (a + y)[|a|..] == y;
  }

  lemma ScanFileApart(p: Primitives, key: string, found: seq<Issue>, a: seq<string>, file: LogFile)
    ensures var all := a + file.lines;
            var issues := found + IssuesOver(p, key, all, |a|, |all|) + TornIssue(file, |all|);
            ScanFile(p, key, ScanLines(p, key, START, a).(issues := found), file) ==
            ScanLines(p, key, START, all).(issues := issues)
  {
    var all := a + file.lines;
    FileAfterFiles(p, key, found, a, file.lines);
    LineCount(p, key, all);
    TornTail(p, key, ScanLines(p, key, START, a).(issues := found), file,
             ScanLines(p, key, START, all).(issues := found + IssuesOver(p, key, all, |a|, |all|)));
  }

  lemma LineCount(p: Primitives, key: string, lines: seq<string>)
    ensures ScanLines(p, key, START, lines).line == |lines|
  {
    ScanMeaning(p, key, lines);
  }

  lemma TornTail(p: Primitives, key: string, s: Scan, file: LogFile, t: Scan)
    requires ScanLines(p, key, s, file.lines) == t
    ensures ScanFile(p, key, s, file) == t.(issues := t.issues + TornIssue(file, t.line))
  {
    assert t.issues + [] == t.issues;
  }

  lemma {:induction false} ScanFilesApart(p: Primitives, key: string, files: seq<LogFile>)
    ensures ScanFiles(p, key, START, files) ==
            ScanLines(p, key, START, Flatten(files)).(issues := FileIssues(p, key, files))
  {
    if files != [] {
      var n := |files| - 1;
      ScanFilesApart(p, key, files[..n]);
      ScanFileApart(p, key, FileIssues(p, key, files[..n]), Flatten(files[..n]), files[n]);
    }
  }

  /** Everything in a report but the issues, in terms of the lines. */
  ghost predicate Tells(p: Primitives, lines: seq<string>, v: Report) {
    var es := ChainEvents(p, lines);
    && v.lastHash == LastHash(p, lines) && v.lastSeq == (if es == [] then 0 else es[|es| - 1].seqNo)
    && v.linesScanned == |lines| && v.chainLines == |es| && v.legacyLines == LegacyCount(p, lines)
    && MaximalRuns(p, lines, v.segments)
  }

  lemma ReplayTells(p: Primitives, key: string, lines: seq<string>, found: seq<Issue>)
    ensures Tells(p, lines, ReportOf(ScanLines(p, key, START, lines).(issues := found)))
  {
    var s := ScanLines(p, key, START, lines);
    ScanMeaning(p, key, lines);
    SegmentsAreMaximalRuns(p, key, lines);
    assert Segments(s.(issues := found)) == Segments(s);
  }

  /** What a report means, for any files, torn ones included: hash, number, counters and segments are
      those of all lines together, as if no file were torn; and the issues are those of the lines, with
      one more at the end of each torn file. */
  lemma VerifyMeaning(p: Primitives, key: string, files: seq<LogFile>)
    ensures var v := Verification(p, key, files);
            Tells(p, Flatten(files), v) && v.issues == FileIssues(p, key, files) && (v.ok <==> v.issues == [])
  {
    ScanFilesApart(p, key, files);
    ReplayTells(p, key, Flatten(files), FileIssues(p, key, files));
  }

  // ---------------------------------------------------------------- global check = local checks + links

  /** Each chain line names its chain predecessor's hash, the first one nothing. */
  ghost predicate Linked(p: Primitives, lines: seq<string>) {
    forall i :: 0 <= i < |lines| ==> LinkedAt(p, lines, i)
  }

  ghost predicate LinkedAt(p: Primitives, lines: seq<string>, i: nat)
    requires i < |lines|
  {
    IsChain(p, lines[i]) ==> At(p, lines[i]).prevHash == LastHash(p, lines[..i])
  }

  ghost predicate LinesPass(p: Primitives, key: string, lines: seq<string>) {
    forall i :: 0 <= i < |lines| ==> p.unmarshal(lines[i]).Some? && VerifyOne(p, lines[i], key).ok
  }

  lemma CleanLine(p: Primitives, key: string, lines: seq<string>, i: nat)
    requires i < |lines| && p.unmarshal("").None?
    ensures IssuesAt(p, key, lines, i) == [] <==>
            && p.unmarshal(lines[i]).Some?
            && VerifyOne(p, lines[i], key).ok
            && LinkedAt(p, lines, i)
  {
  }

  lemma CleanIffLocal(p: Primitives, key: string, lines: seq<string>)
    requires p.unmarshal("").None?
    ensures AllIssues(p, key, lines) == [] <==> LinesPass(p, key, lines) && Linked(p, lines)
  {
    AllIssuesEmpty(p, key, lines);
    forall i | 0 <= i < |lines|
      ensures IssuesAt(p, key, lines, i) == [] <==>
              p.unmarshal(lines[i]).Some? && VerifyOne(p, lines[i], key).ok && LinkedAt(p, lines, i)
    {
      CleanLine(p, key, lines, i);
    }
  }

  lemma VerifyOkIffLocal(p: Primitives, key: string, files: seq<LogFile>)
    requires p.unmarshal("").None?
    ensures Verification(p, key, files).ok <==>
            Untorn(files) && LinesPass(p, key, Flatten(files)) && Linked(p, Flatten(files))
  {
    if !Untorn(files) {
      TornIsReported(p, key, files);
    } else {
      ScanFilesFlat(p, key, files);
      ScanMeaning(p, key, Flatten(files));
      CleanIffLocal(p, key, Flatten(files));
    }
  }

  /** Acceptance is prefix-closed: cutting any number of lines off the end of an accepted log
      leaves a log that is accepted too. */
  lemma AcceptancePrefixClosed(p: Primitives, key: string, files: seq<LogFile>, cut: seq<LogFile>)
    requires p.unmarshal("").None?
    requires Verification(p, key, files).ok
    requires Untorn(cut) && Flatten(cut) <= Flatten(files)
    ensures Verification(p, key, cut).ok
  {
    VerifyOkIffLocal(p, key, files);
    VerifyOkIffLocal(p, key, cut);
    var a, b := Flatten(cut), Flatten(files);
    forall i | 0 <= i < |a|
      ensures LinkedAt(p, a, i) && a[i] == b[i]
    {
      assert a[..i] == b[..i] && LinkedAt(p, b, i);
    }
  }
}
