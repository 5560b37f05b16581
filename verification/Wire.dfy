/** The vocabulary shared by the event-log modules: events as the logger sees them, the
    library primitives the chain rests on, and what may be assumed about those primitives. */
module Wire {

  datatype Option<+T> = None | Some(value: T)
  {
    function GetOr(default: T): T {
      if Some? then value else default
    }
  }

  /** The stamp that marks a line as part of the hash chain. */
  const INTEGRITY_VERSION := "v0.15"

  /** Sequence numbers are unsigned 64-bit and wrap. */
  const UINT64: nat := 0x1_0000_0000_0000_0000

  /** A value under subject, object or evidence: a JSON scalar or list as text, a struct with its
      fields in declaration order, or a map. */
  datatype Value = Scalar(json: string) | Struct(fields: seq<(string, string)>) | Map(entries: seq<(string, string)>)

  /** A map from names to values; the order of its entries carries no meaning. */
  type Table = seq<(string, Value)>

  /** The part of an event the chain never looks into. */
  datatype Content = Content(
    schemaVersion: string,
    timestamp: string,
    eventID: string,
    host: string,
    category: string,
    severity: string,
    subject: Table,
    obj: Table,
    action: string,
    decision: string,
    ruleID: string,
    evidence: Table)

  datatype Event = Event(
    integrityVersion: string,
    chainID: string,
    seqNo: nat,
    prevHash: string,
    hash: string,
    hmac: string,
    content: Content)
  {
    /** Every integrity field as a caller of Write leaves it. */
    predicate Blank() {
      integrityVersion == "" && chainID == "" && seqNo == 0 && prevHash == "" && hash == "" && hmac == ""
    }

    predicate SameHeader(other: Event) {
      && integrityVersion == other.integrityVersion && chainID == other.chainID && seqNo == other.seqNo
      && prevHash == other.prevHash && hash == other.hash && hmac == other.hmac
    }

    function Strip(): Event {
      this.(hash := "", hmac := "")
    }
  }

  /** SHA-256 and HMAC-SHA-256 in hex, and the JSON codec.  Marshalling fails on values JSON
      cannot carry; unmarshalling fails on text that is not an event object. */
  datatype Primitives = Primitives(
    sha: string -> string,
    mac: (string, string) -> string,
    encodable: Content -> bool,
    marshal: Event -> Option<string>,
    unmarshal: string -> Option<Event>)
  {
    /** Nothing here says that `sha` is injective, or that the content survives a round trip. */
    ghost predicate Lawful() {
      DigestLaw() && CodecLaw()
    }

    ghost predicate DigestLaw() {
      forall s :: HexDigest(sha(s))
    }

    ghost predicate CodecLaw() {
      // Whether an event marshals depends on its content alone, and gives a JSON object.
      && (forall e {:trigger marshal(e)} :: marshal(e).Some? == encodable(e.content))
      && (forall e {:trigger marshal(e)} :: marshal(e).Some? ==> OpensObject(marshal(e).value))
      // A marshalled event decodes, with its integrity fields intact.
      && (forall e {:trigger marshal(e)} :: marshal(e).Some? ==>
            unmarshal(marshal(e).value).Some? && unmarshal(marshal(e).value).value.SameHeader(e))
      // What came out of JSON goes back into JSON, and an empty line is not an event.
      && (forall s {:trigger unmarshal(s)} :: unmarshal(s).Some? ==> encodable(unmarshal(s).value.content))
      && unmarshal("").None?
    }
  }

  predicate HexDigest(s: string) {
    |s| == 64 && forall i :: 0 <= i < |s| ==> '0' <= s[i] <= '9' || 'a' <= s[i] <= 'f'
  }

  predicate OpensObject(s: string) {
    s != "" && s[0] == '{'
  }

  /** Two different strings of `inputs` with one digest. */
  ghost predicate Collision(p: Primitives, inputs: set<string>) {
    exists x, y :: x in inputs && y in inputs && x != y && p.sha(x) == p.sha(y)
  }

  /** The first brace of `digest + object` is where the object starts. */
  lemma BraceAt(a: string, x: string)
    requires a == "" || HexDigest(a)
    requires OpensObject(x)
    ensures (a + x)[|a|] == '{'
    ensures forall i :: 0 <= i < |a| ==> (a + x)[i] != '{'
  {
  }

  /** The hashed text is a digest (or nothing) glued to a JSON object, and splits only one way. */
  lemma SplitUnique(a: string, x: string, b: string, y: string)
    requires a == "" || HexDigest(a)
    requires b == "" || HexDigest(b)
    requires OpensObject(x) && OpensObject(y)
    requires a + x == b + y
    ensures a == b && x == y
  {
    BraceAt(a, x);
    BraceAt(b, y);
    assert |a| == |b|;
    assert a == (a + x)[..|a|] && b == (b + y)[..|b|];
    assert x == (a + x)[|a|..] && y == (b + y)[|b|..];
  }
}
