/** Primitives that obey the laws assumed of the libraries, and which events verify under them: an
    event survives re-encoding exactly when no struct inside its tables is out of key order, and
    every response event has one (internal/control/agent.go, internal/response/response.go). */
module Witness {
  import opened Wire
  import opened Chain
  import opened VerifyLog
  import opened Codec

  function Repeated(c: char, n: nat): (s: string)
    ensures |s| == n && forall i :: 0 <= i < n ==> s[i] == c
  {
    seq(n, i => c)
  }

  /** A digest that tells one text from all others. */
  ghost function Toy(special: string): Primitives {
    Primitives(
      s => if s == special then Repeated('1', 64) else Repeated('0', 64),
      (key, text) => Repeated('0', 64),
      c => true,
      e => Some(Encode(e)),
      s => Decode(s))
  }

  /** The laws can be met. */
  lemma ToyIsLawful(special: string)
    ensures Toy(special).Lawful()
  {
    var p := Toy(special);
    forall e {:trigger p.marshal(e)}
      ensures p.unmarshal(p.marshal(e).value).Some? && p.unmarshal(p.marshal(e).value).value.SameHeader(e)
      ensures OpensObject(p.marshal(e).value)
    {
      DecodeEncode(e);
    }
    assert forall e :: Encode(e) != "";
  }

  /** Which events re-encode to the bytes that were hashed: exactly those whose tables hold no
      struct with fields out of key order. */
  lemma CanonicalIff(special: string, e: Event)
    ensures Canonical(Toy(special), e) <==> ContentSurvives(e.content)
  {
    DecodeEncode(e);
    var d := e.(content := ReadBack(e.content));
    var x, y := d.Strip(), e.Strip();
    EncodeIff(x, y);
    assert x.SameHeader(y) && x.content == d.content && y.content == e.content;
    TableSurvives(e.content.subject);
    TableSurvives(e.content.obj);
    TableSurvives(e.content.evidence);
  }

  function Sealing(p: Primitives, e: Event, id: string): SealResult {
    SealChain(p, NO_STATE, e, "", "sha256", id)
  }

  /** The sealed event without hash and MAC. */
  function Stamped(e: Event, id: string): Event {
    e.(integrityVersion := INTEGRITY_VERSION, chainID := id, seqNo := 1, prevHash := "", hash := "", hmac := "")
  }

  lemma EventSealed(p: Primitives, special: string, e: Event, id: string)
    requires id != "" && p == Toy(special)
    ensures Sealing(p, e, id).Sealed? && Sealing(p, e, id).event.Strip() == Stamped(e, id)
    ensures SealedAt(p, "", "", Sealing(p, e, id).event, Sealing(p, e, id).raw)
    ensures Sealing(p, e, id).raw == Encode(Sealing(p, e, id).event)
  {
    SealIsHonest(p, NO_STATE, e, "", "sha256", id);
  }

  /** A log of one line. */
  lemma OneLineLog(p: Primitives, raw: string, x: Event)
    requires p.Lawful() && SealedAt(p, "", "", x, raw)
    ensures Verification(p, "", [LogFile([raw], false)]).ok <==> VerifyOne(p, raw, "").ok
  {
    var files := [LogFile([raw], false)];
    VerifyOkIffLocal(p, "", files);
    assert files[..0] == [] && Flatten(files) == [raw];
    SealedDecodes(p, "", "", x, raw);
    assert [raw][..0] == [] && LastHash(p, [raw][..0]) == "";
    assert LinkedAt(p, [raw], 0);
    assert LinesPass(p, "", [raw]) ==> VerifyOne(p, [raw][0], "").ok;
  }

  lemma ToyTells(special: string, other: string)
    requires other != special
    ensures !Collision(Toy(special), {special, other})
  {
    assert Repeated('1', 64)[0] != Repeated('0', 64)[0];
  }

  lemma LineNotOk(p: Primitives, special: string, x: Event, raw: string)
    requires p.Lawful() && SealedAt(p, "", "", x, raw) && p.unmarshal(raw).Some?
    requires PayloadText(p, x) == special && !Canonical(p, x)
    requires !Collision(p, {special, PayloadText(p, p.unmarshal(raw).value)})
    ensures !VerifyOne(p, raw, "").ok
  {
    var other := PayloadText(p, p.unmarshal(raw).value);
    SealedDecodes(p, "", "", x, raw);
    SealThenVerifyOne(p, "", "", x, raw);
    assert "" + special == special && "" + other == other;
  }

  ghost predicate Accepted(p: Primitives, e: Event, id: string) {
    var s := Sealing(p, e, id);
    s.Sealed? && Verification(p, "", [LogFile([s.raw], false)]).ok
  }

  /** An event that survives is accepted, under every such digest. */
  lemma SurvivorAccepted(special: string, e: Event, id: string)
    requires id != "" && ContentSurvives(e.content)
    ensures Accepted(Toy(special), e, id)
  {
    var p := Toy(special);
    ToyIsLawful(special);
    EventSealed(p, special, e, id);
    var s := Sealing(p, e, id);
    assert s.event.content == s.event.Strip().content == e.content;
    CanonicalIff(special, s.event);
    SealThenVerifyOne(p, "", "", s.event, s.raw);
    OneLineLog(p, s.raw, s.event);
  }

  /** An event that does not survive is rejected, under the digest that tells its payload apart. */
  lemma OthersRejected(p: Primitives, special: string, e: Event, id: string)
    requires p == Toy(special) && special == Encode(Stamped(e, id)) && id != "" && !ContentSurvives(e.content)
    ensures Sealing(p, e, id).Sealed? && !Canonical(p, Sealing(p, e, id).event) && !Accepted(p, e, id)
  {
    ToyIsLawful(special);
    EventSealed(p, special, e, id);
    var s := Sealing(p, e, id);
    assert s.event.content == s.event.Strip().content == e.content;
    CanonicalIff(special, s.event);
    SealedDecodes(p, "", "", s.event, s.raw);
    ToyTells(special, PayloadText(p, p.unmarshal(s.raw).value));
    LineNotOk(p, special, s.event, s.raw);
    OneLineLog(p, s.raw, s.event);
  }

  /** What the agent stores under `evidence` when it has applied a response. */
  function ResponseEvidence(action: string, success: string, detail: string): Table {
    [("response", Struct([("action", action), ("success", success), ("detail", detail)]))]
  }

  lemma ResponseOutOfOrder(action: string, success: string, detail: string)
    ensures !AllSurvive(ResponseEvidence(action, success, detail))
  {
    var fields := [("action", action), ("success", success), ("detail", detail)];
    assert !Precedes("success", "detail");
    assert fields[1].0 == "success" && fields[2].0 == "detail";
    assert ResponseEvidence(action, success, detail)[0].1 == Struct(fields);
  }

  /** Every response event, sealed and read back on its own with every effect successful, fails to
      verify under lawful primitives under which every event without a struct that is out of key
      order is accepted. */
  lemma ResponseEventRejected(e: Event, id: string, action: string, success: string, detail: string)
    requires e.Blank() && id != "" && e.content.evidence == ResponseEvidence(action, success, detail)
    ensures var p := Toy(Encode(Stamped(e, id)));
            && p.Lawful()
            && Sealing(p, e, id).Sealed? && !Canonical(p, Sealing(p, e, id).event) && !Accepted(p, e, id)
            && forall f: Event :: ContentSurvives(f.content) ==> Accepted(p, f, id)
  {
    var special := Encode(Stamped(e, id));
    var p := Toy(special);
    ToyIsLawful(special);
    ResponseOutOfOrder(action, success, detail);
    OthersRejected(p, special, e, id);
    forall f: Event | ContentSurvives(f.content)
      ensures Accepted(p, f, id)
    {
      SurvivorAccepted(special, f, id);
    }
  }
}
