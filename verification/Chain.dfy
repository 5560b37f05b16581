/** Sealing an event onto the chain and checking one line (internal/eventlog/integrity.go). */
module Chain {
  import opened Wire

  datatype ChainState = ChainState(
    chainID: string,
    lastSeq: nat,
    lastHash: string,
    lastHMAC: string,
    algorithm: string,
    legacyAck: bool,
    hasHMACKey: bool)

  const NO_STATE := ChainState("", 0, "", "", "", false, false)

  /** The bytes the digest covers: the event without its own hash and MAC. */
  function Payload(p: Primitives, e: Event): Option<string> {
    p.marshal(e.Strip())
  }

  function RecomputeHash(p: Primitives, e: Event, prevHash: string): Option<string> {
    match Payload(p, e)
    case None => None
    case Some(payload) => Some(p.sha(prevHash + payload))
  }

  predicate Supported(algo: string) {
    algo == "" || algo == "sha256"
  }

  datatype SealResult = SealError | Sealed(event: Event, raw: string, next: ChainState)

  /** One step of the writer's chain.  `freshID` is the random identifier drawn when the state
      has none yet. */
  function SealChain(p: Primitives, st: ChainState, e: Event, key: string, algo: string, freshID: string): SealResult
  {
    if !Supported(algo) then SealError else
    var chainID := if st.chainID == "" then freshID else st.chainID;
    var algorithm := if st.algorithm == "" then algo else st.algorithm;
    var seqNo := (st.lastSeq + 1) % UINT64;
    var stamped := e.(integrityVersion := INTEGRITY_VERSION, chainID := chainID, seqNo := seqNo,
                      prevHash := st.lastHash);
    match Payload(p, stamped)
    case None => SealError
    case Some(payload) =>
      var digest := p.sha(st.lastHash + payload);
      var hmac := if key == "" then stamped.hmac else p.mac(key, digest);
      var event := stamped.(hash := digest, hmac := hmac);
      match p.marshal(event)
      case None => SealError
      case Some(raw) =>
        Sealed(event, raw,
               ChainState(chainID, seqNo, digest, if key == "" then st.lastHMAC else hmac, algorithm,
                          st.legacyAck, st.hasHMACKey || key != ""))
  }

  datatype LineCheck = LineCheck(ok: bool, seqNo: nat, hashMatch: bool, hmacMatch: bool)

  /** Check one line on its own, trusting the predecessor hash it names. */
  function VerifyOne(p: Primitives, line: string, key: string): LineCheck {
    if line == "" then LineCheck(true, 0, true, true) else
    match p.unmarshal(line)
    case None => LineCheck(false, 0, false, false)
    case Some(e) =>
      if e.integrityVersion != INTEGRITY_VERSION then LineCheck(true, e.seqNo, true, true) else
      match RecomputeHash(p, e, e.prevHash)
      case None => LineCheck(false, e.seqNo, false, false)
      case Some(expected) =>
        var hashMatch := expected == e.hash;
        var hmacMatch := key == "" || p.mac(key, e.hash) == e.hmac;
        LineCheck(hashMatch && hmacMatch, e.seqNo, hashMatch, hmacMatch)
  }

  /** Re-encoding the decoded line gives the bytes that were hashed. */
  predicate Canonical(p: Primitives, e: Event) {
    p.marshal(e).Some? && p.unmarshal(p.marshal(e).value).Some? &&
    Payload(p, p.unmarshal(p.marshal(e).value).value) == Payload(p, e)
  }

  /** The payload as text; every event that came off a log or was sealed onto one has it. */
  function PayloadText(p: Primitives, e: Event): string {
    if Payload(p, e).Some? then Payload(p, e).value else ""
  }

  /** `x` and its wire form are what an honest writer at head hash `before` produces. */
  ghost predicate SealedAt(p: Primitives, key: string, before: string, e: Event, raw: string) {
    && p.marshal(e) == Some(raw)
    && e.integrityVersion == INTEGRITY_VERSION && e.chainID != "" && e.prevHash == before
    && Payload(p, e).Some?
    && e.hash == p.sha(before + PayloadText(p, e))
    && (key != "" ==> e.hmac == p.mac(key, e.hash))
  }

  lemma SealIsHonest(p: Primitives, st: ChainState, e: Event, key: string, algo: string, freshID: string)
    requires SealChain(p, st, e, key, algo, freshID).Sealed? && freshID != ""
    ensures var s := SealChain(p, st, e, key, algo, freshID);
            && SealedAt(p, key, st.lastHash, s.event, s.raw) && s.next.lastHash == s.event.hash
            && s.event.integrityVersion == "v0.15" && s.event.content == e.content
            && s.event.seqNo == s.next.lastSeq == (st.lastSeq + 1) % 0x1_0000_0000_0000_0000
  {
    var s := SealChain(p, st, e, key, algo, freshID);
    var stamped := e.(integrityVersion := INTEGRITY_VERSION, chainID := s.event.chainID,
                      seqNo := s.event.seqNo, prevHash := st.lastHash);
    assert s.event.Strip() == stamped.Strip();
  }

  /** Sealing fails on an algorithm other than SHA-256 and on content JSON cannot carry, and on
      nothing else. */
  lemma SealSucceedsIff(p: Primitives, st: ChainState, e: Event, key: string, algo: string, freshID: string)
    requires p.CodecLaw()
    ensures SealChain(p, st, e, key, algo, freshID).Sealed? <==>
            (algo == "" || algo == "sha256") && p.encodable(e.content)
  {
    var stamped := e.(integrityVersion := INTEGRITY_VERSION,
                      chainID := if st.chainID == "" then freshID else st.chainID,
                      seqNo := (st.lastSeq + 1) % UINT64, prevHash := st.lastHash);
    assert stamped.Strip().content == e.content;
    assert p.marshal(stamped.Strip()).Some? <==> p.encodable(e.content);
  }

  /** What the reader of a sealed line finds. */
  lemma SealedDecodes(p: Primitives, key: string, before: string, e: Event, raw: string)
    requires p.Lawful() && SealedAt(p, key, before, e, raw)
    ensures p.unmarshal(raw).Some? && raw != ""
    ensures var d := p.unmarshal(raw).value;
            d.SameHeader(e) && Payload(p, d).Some? && (Canonical(p, e) <==> PayloadText(p, d) == PayloadText(p, e))
  {
    var d := p.unmarshal(raw).value;
    assert d.Strip().content == d.content;
  }

  lemma TextsDiffer(before: string, x: string, y: string)
    requires x != y
    ensures before + x != before + y
  {
    assert (before + x)[|before|..] == x && (before + y)[|before|..] == y;
  }

  /** A sealed line passes the stand-alone check exactly when it is canonical, up to a collision
      between the text the writer hashed and the text the checker hashes. */
  lemma SealThenVerifyOne(p: Primitives, key: string, before: string, e: Event, raw: string)
    requires p.Lawful() && SealedAt(p, key, before, e, raw)
    ensures VerifyOne(p, raw, key).seqNo == e.seqNo && VerifyOne(p, raw, key).hmacMatch
    ensures Canonical(p, e) ==> VerifyOne(p, raw, key).ok
    ensures VerifyOne(p, raw, key).ok ==>
              || Canonical(p, e)
              || Collision(p, {before + PayloadText(p, e), before + PayloadText(p, p.unmarshal(raw).value)})
  {
    SealedDecodes(p, key, before, e, raw);
    var d := p.unmarshal(raw).value;
    if VerifyOne(p, raw, key).ok && !Canonical(p, e) {
      TextsDiffer(before, PayloadText(p, e), PayloadText(p, d));
    }
  }
}
