/** The last hash of an accepted log pins down everything that was chained before it. */
module Binding {
  import opened Wire
  import opened Chain
  import opened VerifyLog

  /** A sequence of chain events in which every hash covers its event and its predecessor. */
  ghost predicate Forged(p: Primitives, es: seq<Event>) {
    forall i :: 0 <= i < |es| ==> ForgedAt(p, es, i)
  }

  ghost predicate ForgedAt(p: Primitives, es: seq<Event>, i: nat)
    requires i < |es|
  {
    && es[i].prevHash == HashBefore(es, i)
    && Payload(p, es[i]).Some?
    && es[i].hash == p.sha(es[i].prevHash + PayloadText(p, es[i]))
  }

  function HashBefore(es: seq<Event>, i: nat): string
    requires i <= |es|
  {
    if i == 0 then "" else es[i - 1].hash
  }

  /** The texts hashed along a chain. */
  function Texts(p: Primitives, es: seq<Event>): set<string> {
    set i | 0 <= i < |es| :: es[i].prevHash + PayloadText(p, es[i])
  }

  lemma ForgedSnoc(p: Primitives, es: seq<Event>, e: Event)
    requires Forged(p, es)
    requires e.prevHash == HashBefore(es, |es|) && Payload(p, e).Some?
    requires e.hash == p.sha(e.prevHash + PayloadText(p, e))
    ensures Forged(p, es + [e])
  {
    forall i | 0 <= i < |es + [e]|
      ensures ForgedAt(p, es + [e], i)
    {
      if i < |es| {
        assert ForgedAt(p, es, i);
      }
    }
  }

  lemma {:induction false} AcceptedIsForged(p: Primitives, key: string, lines: seq<string>)
    requires p.Lawful()
    requires LinesPass(p, key, lines) && Linked(p, lines)
    ensures Forged(p, ChainEvents(p, lines))
  {
    if lines != [] {
      var n := |lines| - 1;
      var front := lines[..n];
      forall i | 0 <= i < n
        ensures LinkedAt(p, front, i) && front[i] == lines[i]
      {
        assert LinkedAt(p, lines, i) && front[..i] == lines[..i];
      }
      AcceptedIsForged(p, key, front);
      var es := ChainEvents(p, front);
      if IsChain(p, lines[n]) {
        var e := At(p, lines[n]);
        assert VerifyOne(p, lines[n], key).ok;
        assert e.Strip().content == e.content;
        assert LinkedAt(p, lines, n);
        ForgedSnoc(p, es, e);
        assert ChainEvents(p, lines) == es + [e];
      } else {
        assert ChainEvents(p, lines) == es;
      }
    }
  }

  lemma HashesAreDigests(p: Primitives, es: seq<Event>, i: nat)
    requires p.Lawful() && Forged(p, es) && i <= |es|
    ensures HashBefore(es, i) == "" <==> i == 0
    ensures i > 0 ==> HexDigest(HashBefore(es, i))
  {
    if i > 0 {
      assert ForgedAt(p, es, i - 1);
    }
  }

  /** One link: equal hashes come from equal texts, and equal texts from equal parts. */
  lemma SharedLink(p: Primitives, x: Event, y: Event, inputs: set<string>)
    requires p.CodecLaw() && Payload(p, x).Some? && Payload(p, y).Some?
    requires x.prevHash == "" || HexDigest(x.prevHash)
    requires y.prevHash == "" || HexDigest(y.prevHash)
    requires p.sha(x.prevHash + PayloadText(p, x)) == p.sha(y.prevHash + PayloadText(p, y))
    requires x.prevHash + PayloadText(p, x) in inputs && y.prevHash + PayloadText(p, y) in inputs
    requires !Collision(p, inputs)
    ensures x.prevHash == y.prevHash && Payload(p, x) == Payload(p, y)
  {
    SplitUnique(x.prevHash, PayloadText(p, x), y.prevHash, PayloadText(p, y));
  }

  lemma LinkBack(p: Primitives, a: seq<Event>, b: seq<Event>, m: nat, n: nat, inputs: set<string>)
    requires p.Lawful() && Forged(p, a) && Forged(p, b)
    requires 0 < m <= |a| && 0 < n <= |b| && HashBefore(a, m) == HashBefore(b, n)
    requires Texts(p, a) <= inputs && Texts(p, b) <= inputs && !Collision(p, inputs)
    ensures HashBefore(a, m - 1) == HashBefore(b, n - 1)
    ensures a[m - 1].hash == b[n - 1].hash && Payload(p, a[m - 1]) == Payload(p, b[n - 1])
  {
    assert ForgedAt(p, a, m - 1) && ForgedAt(p, b, n - 1);
    HashesAreDigests(p, a, m - 1);
    HashesAreDigests(p, b, n - 1);
    SharedLink(p, a[m - 1], b[n - 1], inputs);
  }

  ghost predicate Agree(p: Primitives, a: seq<Event>, b: seq<Event>, n: nat) {
    n <= |a| && n <= |b| && forall i :: 0 <= i < n ==> a[i].hash == b[i].hash && Payload(p, a[i]) == Payload(p, b[i])
  }

  /** Working back from a shared hash: the two chains agree on everything before it. */
  lemma {:induction false} SharedHash(p: Primitives, a: seq<Event>, b: seq<Event>, m: nat, n: nat, inputs: set<string>)
    requires p.Lawful() && Forged(p, a) && Forged(p, b)
    requires m <= |a| && n <= |b|
    requires HashBefore(a, m) == HashBefore(b, n)
    requires Texts(p, a) <= inputs && Texts(p, b) <= inputs && !Collision(p, inputs)
    ensures m == n && Agree(p, a, b, m)
  {
    HashesAreDigests(p, a, m);
    HashesAreDigests(p, b, n);
    if m > 0 {
      LinkBack(p, a, b, m, n, inputs);
      SharedHash(p, a, b, m - 1, n - 1, inputs);
    }
  }

  /** What acceptance says about the chain events alone. */
  lemma AcceptedChain(p: Primitives, key: string, files: seq<LogFile>)
    requires p.Lawful() && Verification(p, key, files).ok
    ensures var es := ChainEvents(p, Flatten(files));
            Forged(p, es) && Verification(p, key, files).lastHash == HashBefore(es, |es|)
  {
    VerifyOkIffLocal(p, key, files);
    ScanFilesFlat(p, key, files);
    ScanMeaning(p, key, Flatten(files));
    AcceptedIsForged(p, key, Flatten(files));
  }

  /** Two accepted logs that report the same last hash carry the same chain of payloads and
      hashes, however their lines are spread over files and whatever legacy lines lie between,
      or two of the texts hashed while checking them collide. */
  lemma LastHashBinds(p: Primitives, keyA: string, filesA: seq<LogFile>, keyB: string, filesB: seq<LogFile>)
    requires p.Lawful()
    requires Verification(p, keyA, filesA).ok && Verification(p, keyB, filesB).ok
    requires Verification(p, keyA, filesA).lastHash == Verification(p, keyB, filesB).lastHash
    ensures var a := ChainEvents(p, Flatten(filesA));
            var b := ChainEvents(p, Flatten(filesB));
            || Collision(p, Texts(p, a) + Texts(p, b))
            || (|a| == |b| && Agree(p, a, b, |a|))
  {
    AcceptedChain(p, keyA, filesA);
    AcceptedChain(p, keyB, filesB);
    var a, b := ChainEvents(p, Flatten(filesA)), ChainEvents(p, Flatten(filesB));
    if !Collision(p, Texts(p, a) + Texts(p, b)) {
      SharedHash(p, a, b, |a|, |b|, Texts(p, a) + Texts(p, b));
    }
  }
}
