/** Checking one event by its sequence number (internal/control/server.go). */
module SeqCheck {
  import opened Wire
  import opened Chain
  import opened VerifyLog
  import opened LogWriter
  import opened LogRun
  import opened Journal

  datatype SeqReport =
    | NoFile
    | ScanFailed
    | Missing
    | Checked(ok: bool, event: Event, hmacOk: bool, kinds: seq<IssueKind>)

  /** The check of the event found, given the hash of the chain line before it.  The first event
      of a chain is not asked for its predecessor. */
  function CheckFound(p: Primitives, key: string, target: nat, prev: string, e: Event): SeqReport {
    match Payload(p, e)
    case None => ScanFailed
    case Some(payload) =>
      var hmacOk := key == "" || p.mac(key, e.hash) == e.hmac;
      var kinds := (if e.prevHash != prev && target > 1 then [PrevHashBreak] else []) +
                   (if e.hash != p.sha(prev + payload) then [HashMismatch] else []) +
                   (if hmacOk then [] else [HmacMismatch]);
      Checked(kinds == [], e, hmacOk, kinds)
  }

  predicate IsTarget(p: Primitives, raw: string, target: nat) {
    IsChain(p, raw) && At(p, raw).seqNo == target
  }

  /** The scan, from a running hash. */
  function SeqScan(p: Primitives, key: string, target: nat, prev: string, lines: seq<string>): SeqReport
    decreases |lines|
  {
    if lines == [] then Missing
    else if !Fits(lines[0]) then ScanFailed
    else if IsTarget(p, lines[0], target) then CheckFound(p, key, target, prev, At(p, lines[0]))
    else SeqScan(p, key, target, if IsChain(p, lines[0]) then At(p, lines[0]).hash else prev, lines[1..])
  }

  /** A log file that does not exist counts as in order. */
  method VerifyEventSeq(p: Primitives, key: string, target: nat, file: Option<seq<string>>)
    returns (report: SeqReport, ok: bool)
    ensures report == if file.None? then NoFile else SeqScan(p, key, target, "", file.value)
    ensures ok <==> report.NoFile? || (report.Checked? && report.kinds == [])
  {
    if file.None? {
      return NoFile, true;
    }
    report := ScanForSeq(p, key, target, file.value);
    ok := report.Checked? && report.ok;
    ScanOk(p, key, target, "", file.value);
  }

  lemma {:induction false} ScanOk(p: Primitives, key: string, target: nat, prev: string, lines: seq<string>)
    ensures var report := SeqScan(p, key, target, prev, lines);
            !report.NoFile? && (report.Checked? ==> (report.ok <==> report.kinds == []))
    decreases |lines|
  {
    if lines != [] && Fits(lines[0]) && !IsTarget(p, lines[0], target) {
      ScanOk(p, key, target, if IsChain(p, lines[0]) then At(p, lines[0]).hash else prev, lines[1..]);
    }
  }

  method ScanForSeq(p: Primitives, key: string, target: nat, lines: seq<string>) returns (report: SeqReport)
    ensures report == SeqScan(p, key, target, "", lines)
  {
    var prev := "";
    var i := 0;
    while i < |lines|
      invariant 0 <= i <= |lines|
      invariant SeqScan(p, key, target, prev, lines[i..]) == SeqScan(p, key, target, "", lines)
    {
      if !Fits(lines[i]) {
        return ScanFailed;
      }
      if IsTarget(p, lines[i], target) {
        return CheckFound(p, key, target, prev, At(p, lines[i]));
      }
      if IsChain(p, lines[i]) {
        prev := At(p, lines[i]).hash;
      }
      assert lines[i..][1..] == lines[i + 1..];
      i := i + 1;
    }
    report := Missing;
  }

  /** The scan checks the first chain line with the number asked for against the hash of its
      chain predecessor, and reports a miss when there is no such line. */
  lemma {:induction false} SeqScanMeaning(p: Primitives, key: string, target: nat, lines: seq<string>, i: nat, j: nat)
    requires i <= j <= |lines| && AllFit(lines)
    requires forall k :: i <= k < j ==> !IsTarget(p, lines[k], target)
    requires j < |lines| ==> IsTarget(p, lines[j], target)
    ensures SeqScan(p, key, target, LastHash(p, lines[..i]), lines[i..]) ==
            if j == |lines| then Missing else CheckFound(p, key, target, LastHash(p, lines[..j]), At(p, lines[j]))
    decreases j - i
  {
    if i < j {
      assert lines[i..][1..] == lines[i + 1..];
      assert lines[..i + 1][..i] == lines[..i];
      SeqScanMeaning(p, key, target, lines, i + 1, j);
    }
  }

  /** A line of a megabyte before the number asked for fails the whole check. */
  lemma {:induction false} SeqScanStops(p: Primitives, key: string, target: nat, prev: string, lines: seq<string>,
                                        long: string, rest: seq<string>)
    requires AllFit(lines) && |long| >= 0x10_0000
    requires forall k :: 0 <= k < |lines| ==> !IsTarget(p, lines[k], target)
    ensures SeqScan(p, key, target, prev, lines + [long] + rest) == ScanFailed
    decreases |lines|
  {
    var all := lines + [long] + rest;
    if lines != [] {
      assert all[1..] == lines[1..] + [long] + rest && all[0] == lines[0];
      SeqScanStops(p, key, target, if IsChain(p, lines[0]) then At(p, lines[0]).hash else prev, lines[1..], long, rest);
    } else {
      assert all[0] == long;
    }
  }

  /** The two verifiers agree line by line: the check by number finds on the first line with that
      number exactly the kinds of issue full verification finds there, except that it excuses the
      first number of a chain from naming its predecessor. */
  lemma SeqAgreesWithVerify(p: Primitives, key: string, lines: seq<string>, j: nat)
    requires p.CodecLaw() && AllFit(lines)
    requires j < |lines| && IsChain(p, lines[j])
    requires forall k :: 0 <= k < j ==> !IsTarget(p, lines[k], At(p, lines[j]).seqNo)
    ensures var e := At(p, lines[j]);
            var report := SeqScan(p, key, e.seqNo, "", lines);
            var full := Kinds(IssuesAt(p, key, lines, j));
            && report.Checked? && report.event == e && (report.ok <==> report.kinds == [])
            && (if e.seqNo > 1 || e.prevHash == LastHash(p, lines[..j]) then report.kinds == full
                else full == [PrevHashBreak] + report.kinds)
  {
    var e := At(p, lines[j]);
    assert lines[..0] == [] && LastHash(p, lines[..0]) == "" && lines[0..] == lines;
    SeqScanMeaning(p, key, e.seqNo, lines, 0, j);
    assert e.Strip().content == e.content;
    EventKinds(p, key, LastHash(p, lines[..j]), e, j + 1);
  }

  /** On a single unrotated file, full verification implies that every sequence number that
      occurs checks out on its own, under the same key. */
  lemma VerifyImpliesSeq(p: Primitives, key: string, lines: seq<string>, j: nat)
    requires p.Lawful() && AllFit(lines)
    requires Verification(p, key, [LogFile(lines, false)]).ok
    requires j < |lines| && IsChain(p, lines[j])
    ensures var target := At(p, lines[j]).seqNo;
            var report := SeqScan(p, key, target, "", lines);
            report.Checked? && report.ok && report.event.seqNo == target
  {
    var target := At(p, lines[j]).seqNo;
    var first := FirstTarget(p, lines, target, j);
    assert lines[..0] == [] && LastHash(p, lines[..0]) == "" && lines[0..] == lines;
    SeqScanMeaning(p, key, target, lines, 0, first);
    var files := [LogFile(lines, false)];
    assert files[..0] == [] && Flatten(files) == lines;
    VerifyOkIffLocal(p, key, files);
    assert LinkedAt(p, lines, first) && VerifyOne(p, lines[first], key).ok;
  }

  lemma {:induction false} FirstTarget(p: Primitives, lines: seq<string>, target: nat, j: nat) returns (first: nat)
    requires j < |lines| && IsTarget(p, lines[j], target)
    ensures first <= j && IsTarget(p, lines[first], target)
    ensures forall k :: 0 <= k < first ==> !IsTarget(p, lines[k], target)
  {
    first := 0;
    while !IsTarget(p, lines[first], target)
      invariant first <= j
      invariant forall k :: 0 <= k < first ==> !IsTarget(p, lines[k], target)
      decreases j - first
    {
      first := first + 1;
    }
  }
}
