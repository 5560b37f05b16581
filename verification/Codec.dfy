/** A concrete codec that does to key order what the JSON package does: struct members are written
    in declaration order, map members in key order, and whatever was inside a table is read back as a
    map (internal/eventlog/event.go).  Its text is not JSON, but tells the same values apart. */
module Codec {
  import opened Wire
  import opened Seqs

  /** Text that ends where it says it ends. */
  function Mark(s: string): string {
    if s == "" then "." else ['x', s[0]] + Mark(s[1..])
  }

  lemma {:induction false} MarkUnique(a: string, r: string, b: string, t: string)
    requires Mark(a) + r == Mark(b) + t
    ensures a == b && r == t
  {
    var x, y := Mark(a) + r, Mark(b) + t;
    assert x[0] == y[0];
    if a == "" {
      assert b == "";
      assert x[1..] == r && y[1..] == t;
    } else {
      assert b != "";
      assert x[1] == a[0] && y[1] == b[0];
      assert x[2..] == Mark(a[1..]) + r && y[2..] == Mark(b[1..]) + t;
      MarkUnique(a[1..], r, b[1..], t);
      assert a == [a[0]] + a[1..] && b == [b[0]] + b[1..];
    }
  }

  function Tally(n: nat): string {
    if n == 0 then "" else "i" + Tally(n - 1)
  }

  lemma {:induction false} TallyLength(n: nat)
    ensures |Tally(n)| == n
  {
    if n > 0 {
      TallyLength(n - 1);
    }
  }

  // ---------------------------------------------------------------- key order

  /** Dictionary order on keys. */
  predicate Precedes(a: string, b: string) {
    if a == "" then true else if b == "" then false
    else a[0] < b[0] || (a[0] == b[0] && Precedes(a[1..], b[1..]))
  }

  lemma {:induction false} PrecedesTotal(a: string, b: string)
    ensures Precedes(a, b) || Precedes(b, a)
  {
    if a != "" && b != "" {
      PrecedesTotal(a[1..], b[1..]);
    }
  }

  function InsertKey<V>(f: (string, V), sorted: seq<(string, V)>): seq<(string, V)> {
    if sorted == [] || Precedes(f.0, sorted[0].0) then [f] + sorted else [sorted[0]] + InsertKey(f, sorted[1..])
  }

  /** The order in which the keys of a map are marshalled. */
  function ByKey<V>(c: seq<(string, V)>): seq<(string, V)> {
    if c == [] then [] else InsertKey(c[0], ByKey(c[1..]))
  }

  predicate InOrder<V>(c: seq<(string, V)>) {
    forall i {:trigger c[i]} :: 0 <= i < |c| - 1 ==> Precedes(c[i].0, c[i + 1].0)
  }

  lemma InOrderCons<V>(x: (string, V), rest: seq<(string, V)>)
    requires InOrder(rest) && (rest != [] ==> Precedes(x.0, rest[0].0))
    ensures InOrder([x] + rest)
  {
    var all := [x] + rest;
    forall i {:trigger all[i]} | 0 <= i < |all| - 1
      ensures Precedes(all[i].0, all[i + 1].0)
    {
      if i > 0 {
        assert all[i] == rest[i - 1] && all[i + 1] == rest[i];
      }
    }
  }

  lemma InOrderTail<V>(c: seq<(string, V)>)
    requires InOrder(c) && c != []
    ensures InOrder(c[1..]) && (|c| > 1 ==> Precedes(c[0].0, c[1].0))
  {
    var rest := c[1..];
    forall i {:trigger rest[i]} | 0 <= i < |rest| - 1
      ensures Precedes(rest[i].0, rest[i + 1].0)
    {
      assert rest[i] == c[i + 1] && rest[i + 1] == c[i + 2];
    }
  }

  lemma {:induction false} InsertKeepsOrder<V>(f: (string, V), sorted: seq<(string, V)>)
    requires InOrder(sorted)
    ensures InOrder(InsertKey(f, sorted))
  {
    if sorted == [] || Precedes(f.0, sorted[0].0) {
      InOrderCons(f, sorted);
    } else {
      PrecedesTotal(f.0, sorted[0].0);
      InOrderTail(sorted);
      InsertKeepsOrder(f, sorted[1..]);
      InOrderCons(sorted[0], InsertKey(f, sorted[1..]));
    }
  }

  lemma {:induction false} ByKeySorts<V>(c: seq<(string, V)>)
    ensures InOrder(ByKey(c))
  {
    if c != [] {
      ByKeySorts(c[1..]);
      InsertKeepsOrder(c[0], ByKey(c[1..]));
    }
  }

  lemma {:induction false} ByKeyFixed<V>(c: seq<(string, V)>)
    requires InOrder(c)
    ensures ByKey(c) == c
  {
    if c != [] {
      InOrderTail(c);
      ByKeyFixed(c[1..]);
    }
  }

  /** Sorting by key changes nothing just when the keys are in order. */
  lemma ByKeyIff<V>(c: seq<(string, V)>)
    ensures ByKey(c) == c <==> InOrder(c)
  {
    ByKeySorts(c);
    if InOrder(c) {
      ByKeyFixed(c);
    }
  }

  // ---------------------------------------------------------------- the text of an event

  /** A value as it stands in the text, keys in the order written. */
  datatype Json = Text(json: string) | Object(members: seq<(string, string)>)

  /** A struct is written in declaration order, a map in key order. */
  function Written(v: Value): Json {
    match v
    case Scalar(json) => Text(json)
    case Struct(fields) => Object(fields)
    case Map(entries) => Object(ByKey(entries))
  }

  /** Nothing in the text tells a struct from a map; reading gives maps. */
  function Read(j: Json): Value {
    match j
    case Text(json) => Scalar(json)
    case Object(members) => Map(members)
  }

  function WrittenAll(t: Table): (r: seq<(string, Json)>)
    ensures |r| == |t| && forall i :: 0 <= i < |t| ==> r[i] == (t[i].0, Written(t[i].1))
  {
    seq(|t|, i requires 0 <= i < |t| => (t[i].0, Written(t[i].1)))
  }

  function ReadAll(t: seq<(string, Json)>): (r: Table)
    ensures |r| == |t| && forall i :: 0 <= i < |t| ==> r[i] == (t[i].0, Read(t[i].1))
  {
    seq(|t|, i requires 0 <= i < |t| => (t[i].0, Read(t[i].1)))
  }

  /** The members of a table as they stand in the text. */
  function WrittenTable(t: Table): seq<(string, Json)> {
    WrittenAll(ByKey(t))
  }

  function Pairs(c: seq<(string, string)>): string {
    if c == [] then "}" else "," + (Mark(c[0].0) + (Mark(c[0].1) + Pairs(c[1..])))
  }

  lemma Opened(h: char, k: string, v: string, rest: string, r: string)
    ensures (([h] + (k + (v + rest))) + r)[0] == h
    ensures (([h] + (k + (v + rest))) + r)[1..] == k + (v + (rest + r))
  {
    Assoc([h], k + (v + rest), r);
    Assoc(k, v + rest, r);
    Assoc(v, rest, r);
  }

  lemma PairsOpen(c: seq<(string, string)>, r: string)
    ensures (Pairs(c) + r)[0] == if c == [] then '}' else ','
    ensures (Pairs(c) + r)[1..] == if c == [] then r else Mark(c[0].0) + (Mark(c[0].1) + (Pairs(c[1..]) + r))
  {
    if c != [] {
      var k, v, rest := Mark(c[0].0), Mark(c[0].1), Pairs(c[1..]);
      Opened(',', k, v, rest, r);
    }
  }

  lemma {:induction false} PairsUnique(c: seq<(string, string)>, r: string, d: seq<(string, string)>, t: string)
    requires Pairs(c) + r == Pairs(d) + t
    ensures c == d && r == t
  {
    PairsOpen(c, r);
    PairsOpen(d, t);
    if c != [] && d != [] {
      var x, y := Pairs(c[1..]) + r, Pairs(d[1..]) + t;
      MarkUnique(c[0].0, Mark(c[0].1) + x, d[0].0, Mark(d[0].1) + y);
      MarkUnique(c[0].1, x, d[0].1, y);
      PairsUnique(c[1..], r, d[1..], t);
      assert c == [c[0]] + c[1..] && d == [d[0]] + d[1..];
    }
  }

  function JsonText(j: Json): string {
    match j
    case Text(json) => "#" + Mark(json)
    case Object(members) => "{" + Pairs(members)
  }

  lemma Prefixed(h: char, x: string, r: string)
    ensures (([h] + x) + r)[0] == h && (([h] + x) + r)[1..] == x + r
  {
    Assoc([h], x, r);
  }

  lemma JsonOpens(j: Json, r: string)
    ensures (JsonText(j) + r)[0] == if j.Text? then '#' else '{'
    ensures (JsonText(j) + r)[1..] == (if j.Text? then Mark(j.json) else Pairs(j.members)) + r
  {
    if j.Text? {
      Prefixed('#', Mark(j.json), r);
    } else {
      Prefixed('{', Pairs(j.members), r);
    }
  }

  lemma JsonUnique(i: Json, r: string, j: Json, t: string)
    requires JsonText(i) + r == JsonText(j) + t
    ensures i == j && r == t
  {
    JsonOpens(i, r);
    JsonOpens(j, t);
    if i.Text? && j.Text? {
      MarkUnique(i.json, r, j.json, t);
    } else if i.Object? && j.Object? {
      PairsUnique(i.members, r, j.members, t);
    }
  }

  function TableText(c: seq<(string, Json)>): string {
    if c == [] then "}" else "," + (Mark(c[0].0) + (JsonText(c[0].1) + TableText(c[1..])))
  }

  lemma TableOpens(c: seq<(string, Json)>, r: string)
    ensures (TableText(c) + r)[0] == if c == [] then '}' else ','
    ensures (TableText(c) + r)[1..] ==
            if c == [] then r else Mark(c[0].0) + (JsonText(c[0].1) + (TableText(c[1..]) + r))
  {
    if c != [] {
      var k, j, rest := Mark(c[0].0), JsonText(c[0].1), TableText(c[1..]);
      Opened(',', k, j, rest, r);
    }
  }

  lemma {:induction false} TableUnique(c: seq<(string, Json)>, r: string, d: seq<(string, Json)>, t: string)
    requires TableText(c) + r == TableText(d) + t
    ensures c == d && r == t
  {
    TableOpens(c, r);
    TableOpens(d, t);
    if c != [] && d != [] {
      var x, y := TableText(c[1..]) + r, TableText(d[1..]) + t;
      MarkUnique(c[0].0, JsonText(c[0].1) + x, d[0].0, JsonText(d[0].1) + y);
      JsonUnique(c[0].1, x, d[0].1, y);
      TableUnique(c[1..], r, d[1..], t);
      assert c == [c[0]] + c[1..] && d == [d[0]] + d[1..];
    }
  }

  function Marks(ss: seq<string>): string {
    if ss == [] then "" else Mark(ss[0]) + Marks(ss[1..])
  }

  lemma {:induction false} MarksUnique(a: seq<string>, r: string, b: seq<string>, t: string)
    requires |a| == |b| && Marks(a) + r == Marks(b) + t
    ensures a == b && r == t
  {
    if a == [] {
      assert "" + r == r && "" + t == t;
    } else {
      assert Marks(a) + r == Mark(a[0]) + (Marks(a[1..]) + r);
      assert Marks(b) + t == Mark(b[0]) + (Marks(b[1..]) + t);
      MarkUnique(a[0], Marks(a[1..]) + r, b[0], Marks(b[1..]) + t);
      MarksUnique(a[1..], r, b[1..], t);
      assert a == [a[0]] + a[1..] && b == [b[0]] + b[1..];
    }
  }

  /** The plain members before the first table and those between the tables, in declaration order. */
  function Leading(e: Event): seq<string> {
    [e.content.schemaVersion, e.integrityVersion, e.chainID, Tally(e.seqNo), e.prevHash, e.hash, e.hmac,
     e.content.timestamp, e.content.eventID, e.content.host, e.content.category, e.content.severity]
  }

  function Trailing(c: Content): seq<string> {
    [c.action, c.decision, c.ruleID]
  }

  function Middle(c: Content): string {
    Marks(Trailing(c)) + TableText(WrittenTable(c.evidence))
  }

  function Tables(c: Content): string {
    TableText(WrittenTable(c.subject)) + (TableText(WrittenTable(c.obj)) + Middle(c))
  }

  /** Members in the order in which the struct declares them, tables in key order. */
  function Encode(e: Event): string {
    "{" + (Marks(Leading(e)) + Tables(e.content))
  }

  /** The two contents read the same. */
  ghost predicate SameText(c: Content, d: Content) {
    && c.schemaVersion == d.schemaVersion && c.timestamp == d.timestamp && c.eventID == d.eventID
    && c.host == d.host && c.category == d.category && c.severity == d.severity
    && c.action == d.action && c.decision == d.decision && c.ruleID == d.ruleID
    && WrittenTable(c.subject) == WrittenTable(d.subject) && WrittenTable(c.obj) == WrittenTable(d.obj)
    && WrittenTable(c.evidence) == WrittenTable(d.evidence)
  }

  lemma TablesUnique(c: Content, d: Content)
    requires Tables(c) == Tables(d)
    ensures Trailing(c) == Trailing(d)
    ensures WrittenTable(c.subject) == WrittenTable(d.subject) && WrittenTable(c.obj) == WrittenTable(d.obj)
    ensures WrittenTable(c.evidence) == WrittenTable(d.evidence)
  {
    TableUnique(WrittenTable(c.subject), TableText(WrittenTable(c.obj)) + Middle(c),
                WrittenTable(d.subject), TableText(WrittenTable(d.obj)) + Middle(d));
    TableUnique(WrittenTable(c.obj), Middle(c), WrittenTable(d.obj), Middle(d));
    MarksUnique(Trailing(c), TableText(WrittenTable(c.evidence)), Trailing(d), TableText(WrittenTable(d.evidence)));
    var x, y := TableText(WrittenTable(c.evidence)), TableText(WrittenTable(d.evidence));
    assert x + "" == x && y + "" == y;
    TableUnique(WrittenTable(c.evidence), "", WrittenTable(d.evidence), "");
  }

  lemma LeadingUnique(e: Event, f: Event)
    requires Leading(e) == Leading(f)
    ensures e.SameHeader(f)
    ensures && e.content.schemaVersion == f.content.schemaVersion && e.content.timestamp == f.content.timestamp
            && e.content.eventID == f.content.eventID && e.content.host == f.content.host
            && e.content.category == f.content.category && e.content.severity == f.content.severity
  {
    var x, y := Leading(e), Leading(f);
    assert x[0] == y[0] && x[1] == y[1] && x[2] == y[2] && x[3] == y[3] && x[4] == y[4] && x[5] == y[5];
    assert x[6] == y[6] && x[7] == y[7] && x[8] == y[8] && x[9] == y[9] && x[10] == y[10] && x[11] == y[11];
    TallyLength(e.seqNo);
    TallyLength(f.seqNo);
  }

  /** The text tells the header, and the content as far as it reads. */
  lemma EncodeIff(e: Event, f: Event)
    ensures Encode(e) == Encode(f) <==> e.SameHeader(f) && SameText(e.content, f.content)
  {
    if Encode(e) == Encode(f) {
      assert Encode(e)[1..] == Marks(Leading(e)) + Tables(e.content);
      assert Encode(f)[1..] == Marks(Leading(f)) + Tables(f.content);
      MarksUnique(Leading(e), Tables(e.content), Leading(f), Tables(f.content));
      LeadingUnique(e, f);
      TablesUnique(e.content, f.content);
      var x, y := Trailing(e.content), Trailing(f.content);
      assert x[0] == y[0] && x[1] == y[1] && x[2] == y[2];
    }
  }

  /** What a reader makes of a content: tables in key order, and maps where structs were. */
  function ReadBack(c: Content): Content {
    c.(subject := ReadAll(WrittenTable(c.subject)), obj := ReadAll(WrittenTable(c.obj)),
       evidence := ReadAll(WrittenTable(c.evidence)))
  }

  ghost function Decode(s: string): Option<Event> {
    if exists e :: Encode(e) == s then
      var e :| Encode(e) == s;
      Some(e.(content := ReadBack(e.content)))
    else None
  }

  lemma SameTextReadsSame(e: Event, f: Event)
    requires Encode(e) == Encode(f)
    ensures e.(content := ReadBack(e.content)) == f.(content := ReadBack(f.content))
  {
    EncodeIff(e, f);
  }

  lemma DecodeEncode(e: Event)
    ensures Decode(Encode(e)) == Some(e.(content := ReadBack(e.content)))
  {
    var s := Encode(e);
    var f :| Encode(f) == s && Decode(s) == Some(f.(content := ReadBack(f.content)));
    SameTextReadsSame(e, f);
  }

  // ---------------------------------------------------------------- which events survive

  /** A struct among the values survives only if it declares its fields in key order. */
  predicate Survives(v: Value) {
    v.Struct? ==> InOrder(v.fields)
  }

  predicate AllSurvive(t: Table) {
    forall i :: 0 <= i < |t| ==> Survives(t[i].1)
  }

  predicate ContentSurvives(c: Content) {
    AllSurvive(c.subject) && AllSurvive(c.obj) && AllSurvive(c.evidence)
  }

  lemma ValueSurvives(v: Value)
    ensures Written(Read(Written(v))) == Written(v) <==> Survives(v)
  {
    match v
    case Scalar(_) =>
    case Struct(fields) => ByKeyIff(fields);
    case Map(entries) =>
      ByKeySorts(entries);
      ByKeyFixed(ByKey(entries));
  }

  lemma {:induction false} InsertMembers<V>(f: (string, V), c: seq<(string, V)>)
    ensures multiset(InsertKey(f, c)) == multiset{f} + multiset(c)
  {
    if c != [] && !Precedes(f.0, c[0].0) {
      InsertMembers(f, c[1..]);
      assert c == [c[0]] + c[1..];
    }
  }

  /** Sorting by key loses nothing and adds nothing. */
  lemma {:induction false} ByKeyMembers<V>(c: seq<(string, V)>)
    ensures multiset(ByKey(c)) == multiset(c)
  {
    if c != [] {
      ByKeyMembers(c[1..]);
      InsertMembers(c[0], ByKey(c[1..]));
      assert c == [c[0]] + c[1..];
    }
  }

  lemma SurvivesByKey(t: Table)
    ensures AllSurvive(ByKey(t)) <==> AllSurvive(t)
  {
    ByKeyMembers(t);
    assert forall i :: 0 <= i < |t| ==> t[i] in multiset(t);
    assert forall i :: 0 <= i < |ByKey(t)| ==> ByKey(t)[i] in multiset(ByKey(t));
    assert forall x :: x in ByKey(t) <==> x in multiset(ByKey(t));
    assert forall x :: x in t <==> x in multiset(t);
    assert AllSurvive(t) <==> forall x :: x in t ==> Survives(x.1);
    assert AllSurvive(ByKey(t)) <==> forall x :: x in ByKey(t) ==> Survives(x.1);
  }

  /** Reading a table gives one already in key order. */
  lemma ReadInOrder(t: Table)
    ensures ByKey(ReadAll(WrittenTable(t))) == ReadAll(WrittenTable(t))
  {
    var sorted, back := ByKey(t), ReadAll(WrittenTable(t));
    ByKeySorts(t);
    forall i {:trigger back[i]} | 0 <= i < |back| - 1
      ensures Precedes(back[i].0, back[i + 1].0)
    {
      assert back[i].0 == sorted[i].0 && back[i + 1].0 == sorted[i + 1].0;
    }
    ByKeyFixed(back);
  }

  /** A table reads back to the same text just when its structs survive. */
  lemma TableSurvives(t: Table)
    ensures WrittenTable(ReadAll(WrittenTable(t))) == WrittenTable(t) <==> AllSurvive(t)
  {
    var sorted, back := ByKey(t), ReadAll(WrittenTable(t));
    ReadInOrder(t);
    SurvivesByKey(t);
    assert |WrittenTable(back)| == |WrittenTable(t)| == |sorted|;
    forall i | 0 <= i < |sorted|
      ensures WrittenTable(back)[i] == WrittenTable(t)[i] <==> Survives(sorted[i].1)
    {
      ValueSurvives(sorted[i].1);
      assert WrittenTable(t)[i] == (sorted[i].0, Written(sorted[i].1));
      assert back[i] == (sorted[i].0, Read(Written(sorted[i].1)));
    }
    if AllSurvive(sorted) {
      assert forall i :: 0 <= i < |sorted| ==> Survives(sorted[i].1);
    }
  }
}
