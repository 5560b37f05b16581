/** What comment stripping does to any text, told from its characters: every text is a run of plain
    characters, string literals, comments and stray slashes (cmd/edr-agent/main.go). */
module CleanPieces {
  import opened Text
  import opened Seqs
  import opened CleanJson

  // ---------------------------------------------------------------- pieces of text

  /** The inside of a JSON string: characters other than quote, backslash and newline, and pairs of
      a backslash and any character but a newline. */
  predicate LiteralBody(b: string) {
    b == "" ||
    if b[0] == '\\' then |b| >= 2 && b[1] != '\n' && LiteralBody(b[2..])
    else b[0] != '"' && b[0] != '\n' && LiteralBody(b[1..])
  }

  /** A string that its line ends before it is closed; a backslash may come last. */
  predicate OpenBody(b: string) {
    LiteralBody(b) || (b != "" && b[|b| - 1] == '\\' && LiteralBody(b[..|b| - 1]))
  }

  datatype Piece =
    | Plain(c: char)
    | Literal(body: string)
    | OpenLiteral(body: string)
    | LineNote(body: string)
    | BlockNote(body: string)
    | OpenNote(body: string)
    | LoneSlash

  predicate Proper(x: Piece) {
    match x
    case Plain(c) => c != '"' && c != '/'
    case Literal(body) => LiteralBody(body)
    case OpenLiteral(body) => OpenBody(body)
    case LineNote(body) => OneLine(body)
    case BlockNote(body) => NoClose(body)
    case OpenNote(body) => NoClose(body)
    case LoneSlash => true
  }

  function Show(x: Piece): string {
    match x
    case Plain(c) => [c]
    case Literal(body) => "\"" + body + "\""
    case OpenLiteral(body) => "\"" + body
    case LineNote(body) => "//" + body
    case BlockNote(body) => "/*" + body + "*/"
    case OpenNote(body) => "/*" + body
    case LoneSlash => "/"
  }

  /** What is to be left of a piece: comments go, but not the line breaks in them. */
  function Left(x: Piece): string {
    match x
    case LineNote(_) => ""
    case BlockNote(body) => Newlines(body)
    case OpenNote(body) => Newlines(body)
    case _ => Show(x)
  }

  function ShowAll(xs: seq<Piece>): string {
    if xs == [] then "" else Show(xs[0]) + ShowAll(xs[1..])
  }

  function LeftAll(xs: seq<Piece>): string {
    if xs == [] then "" else Left(xs[0]) + LeftAll(xs[1..])
  }

  predicate EndsLine(rest: string) {
    rest == "" || rest[0] == '\n'
  }

  /** `x` can stand before `rest`: an open string or a line comment goes to the end of its line, an
      open block comment to the end of the text, and a stray slash opens no comment. */
  predicate Stands(x: Piece, rest: string) {
    match x
    case OpenLiteral(_) => EndsLine(rest)
    case LineNote(_) => EndsLine(rest)
    case OpenNote(_) => rest == ""
    case LoneSlash => rest == "" || (rest[0] != '/' && rest[0] != '*')
    case _ => true
  }

  predicate Division(xs: seq<Piece>) {
    xs == [] || (Proper(xs[0]) && Stands(xs[0], ShowAll(xs[1..])) && Division(xs[1..]))
  }

  // ---------------------------------------------------------------- the scanner on one piece

  lemma {:induction false} InString(b: string)
    requires LiteralBody(b)
    ensures End(Str, b) == Str && Emit(Str, b) == b
  {
    if b != "" {
      if b[0] == '\\' {
        InString(b[2..]);
        assert b == [b[0], b[1]] + b[2..];
        Two(Str, b[0], b[1]);
        ScanSplit(Str, [b[0], b[1]], b[2..]);
      } else {
        InString(b[1..]);
        assert b == [b[0]] + b[1..];
        One(Str, b[0]);
        ScanSplit(Str, [b[0]], b[1..]);
      }
    }
  }

  lemma InOpenString(b: string)
    requires OpenBody(b)
    ensures (End(Str, b) == Str || End(Str, b) == Esc) && Emit(Str, b) == b
  {
    if LiteralBody(b) {
      InString(b);
    } else {
      LastBackslash(b[..|b| - 1]);
      assert b == b[..|b| - 1] + ['\\'];
    }
  }

  lemma LastBackslash(b: string)
    requires LiteralBody(b)
    ensures End(Str, b + ['\\']) == Esc && Emit(Str, b + ['\\']) == b + ['\\']
  {
    InString(b);
    One(Str, '\\');
    ScanSplit(Str, b, ['\\']);
  }

  /** A string literal comes through whole, whatever looks like a comment inside it. */
  lemma LiteralPasses(b: string)
    requires LiteralBody(b)
    ensures End(Normal, "\"" + b + "\"") == Normal && Emit(Normal, "\"" + b + "\"") == "\"" + b + "\""
  {
    InString(b);
    Quoted(b);
    One(Str, '"');
    ScanSplit(Normal, "\"" + b, "\"");
  }

  lemma Quoted(b: string)
    ensures End(Normal, "\"" + b) == End(Str, b) && Emit(Normal, "\"" + b) == "\"" + Emit(Str, b)
  {
    One(Normal, '"');
    ScanSplit(Normal, "\"", b);
  }

  /** At the end of a line an open string is over. */
  lemma StringEnds(m: Mode, rest: string)
    requires (m == Str || m == Esc) && EndsLine(rest)
    ensures Scan(m, rest) == Scan(Normal, rest)
  {
    if rest != "" {
      ScanCons(m, rest);
      ScanCons(Normal, rest);
    }
  }

  lemma SlashGoesOn(rest: string)
    requires rest == "" || (rest[0] != '/' && rest[0] != '*')
    ensures Scan(Slash, rest) == "/" + Scan(Normal, rest)
  {
    if rest != "" {
      ScanCons(Slash, rest);
      ScanCons(Normal, rest);
    }
  }

  lemma SlashStands(rest: string)
    requires rest == "" || (rest[0] != '/' && rest[0] != '*')
    ensures Scan(Normal, "/" + rest) == "/" + Scan(Normal, rest)
  {
    ScanCons(Normal, "/" + rest);
    assert ("/" + rest)[1..] == rest;
    SlashGoesOn(rest);
  }

  lemma OpenNoteScan(body: string)
    requires NoClose(body)
    ensures Scan(Normal, "/*" + body) == Newlines(body)
  {
    BlockBody(Block, body);
    Two(Normal, '/', '*');
    ScanSplit(Normal, "/*", body);
  }

  lemma PlainPasses(c: char, rest: string)
    requires c != '"' && c != '/'
    ensures Scan(Normal, [c] + rest) == [c] + Scan(Normal, rest)
  {
    ScanCons(Normal, [c] + rest);
    assert ([c] + rest)[1..] == rest;
  }

  lemma OpenLiteralScan(body: string, rest: string)
    requires OpenBody(body) && EndsLine(rest)
    ensures Scan(Normal, "\"" + body + rest) == "\"" + body + Scan(Normal, rest)
  {
    InOpenString(body);
    Quoted(body);
    ScanConcat(Normal, "\"" + body, rest);
    StringEnds(End(Str, body), rest);
  }

  lemma LineNoteScan(body: string, rest: string)
    requires OneLine(body) && EndsLine(rest)
    ensures Scan(Normal, "//" + body + rest) == Scan(Normal, rest)
  {
    LineComment(body);
    ScanConcat(Normal, "//" + body, rest);
    LineEnds(rest);
  }

  lemma PieceLeft(x: Piece, rest: string)
    requires Proper(x) && Stands(x, rest)
    ensures Scan(Normal, Show(x) + rest) == Left(x) + Scan(Normal, rest)
  {
    match x
    case Plain(c) => PlainPasses(c, rest);
    case Literal(body) =>
      LiteralPasses(body);
      ScanConcat(Normal, Show(x), rest);
    case OpenLiteral(body) => OpenLiteralScan(body, rest);
    case LineNote(body) => LineNoteScan(body, rest);
    case BlockNote(body) =>
      BlockCommentEmits(body);
      ScanConcat(Normal, Show(x), rest);
    case OpenNote(body) =>
      OpenNoteScan(body);
      assert Show(x) + rest == Show(x) && Left(x) + "" == Left(x);
    case LoneSlash => SlashStands(rest);
  }

  // ---------------------------------------------------------------- any text

  /** Scanning a text leaves of each piece what is to be left of it. */
  lemma {:induction false} DivisionScan(xs: seq<Piece>)
    requires Division(xs)
    ensures Scan(Normal, ShowAll(xs)) == LeftAll(xs)
  {
    if xs != [] {
      PieceLeft(xs[0], ShowAll(xs[1..]));
      DivisionScan(xs[1..]);
    }
  }

  /** Cleaning, on any text however it is divided into pieces: comments go, everything else stays,
      and then blank lines go. */
  lemma CleanMeaning(xs: seq<Piece>)
    requires Division(xs)
    ensures Clean(ShowAll(xs)) == Join(NonBlank(Split(LeftAll(xs))))
  {
    CleanIsWholeScan(ShowAll(xs));
    DivisionScan(xs);
  }

  /** The string at the front of `text`, just after its opening quote. */
  lemma {:induction false} TakeLiteral(text: string) returns (body: string, closed: bool, rest: string)
    ensures text == body + (if closed then "\"" else "") + rest
    ensures if closed then LiteralBody(body) else OpenBody(body) && EndsLine(rest)
    decreases |text|
  {
    if EndsLine(text) {
      return "", false, text;
    }
    if text[0] == '"' {
      return "", true, text[1..];
    }
    if text[0] == '\\' && EndsLine(text[1..]) {
      assert "\\"[..0] == "" && text == "\\" + text[1..];
      return "\\", false, text[1..];
    }
    var n := if text[0] == '\\' then 2 else 1;
    body, closed, rest := TakeLiteral(text[n..]);
    LongerBody(text[..n], body);
    assert text == text[..n] + text[n..];
    assert text[..n] + (body + (if closed then "\"" else "") + rest)
        == (text[..n] + body) + (if closed then "\"" else "") + rest;
    body := text[..n] + body;
  }

  lemma LongerBody(front: string, body: string)
    requires LiteralBody(front) && 1 <= |front| <= 2 && (|front| == 2 <==> front[0] == '\\')
    ensures LiteralBody(body) ==> LiteralBody(front + body)
    ensures OpenBody(body) ==> OpenBody(front + body)
  {
    assert (front + body)[|front|..] == body;
    if OpenBody(body) && !LiteralBody(body) {
      var b := body[..|body| - 1];
      assert (front + b)[|front|..] == b;
      assert (front + body)[..|front + body| - 1] == front + b;
    }
  }

  lemma {:induction false} TakeLine(text: string) returns (body: string, rest: string)
    ensures text == body + rest && OneLine(body) && EndsLine(rest)
    decreases |text|
  {
    if EndsLine(text) {
      return "", text;
    }
    body, rest := TakeLine(text[1..]);
    assert text == [text[0]] + text[1..];
    body := [text[0]] + body;
  }

  lemma {:induction false} TakeNote(text: string) returns (body: string, closed: bool, rest: string)
    ensures text == body + (if closed then "*/" else "") + rest
    ensures NoClose(body) && (!closed ==> rest == "")
    decreases |text|
  {
    if text == "" {
      return "", false, "";
    }
    if |text| >= 2 && text[0] == '*' && text[1] == '/' {
      assert text == "*/" + text[2..];
      return "", true, text[2..];
    }
    body, closed, rest := TakeNote(text[1..]);
    assert text == [text[0]] + text[1..];
    assert text == ([text[0]] + body) + (if closed then "*/" else "") + rest;
    body := [text[0]] + body;
  }

  /** Every text can be so divided. */
  lemma {:induction false} Divides(text: string) returns (xs: seq<Piece>)
    ensures Division(xs) && ShowAll(xs) == text
    decreases |text|
  {
    if text == "" {
      return [];
    }
    var x, rest := FirstPiece(text);
    xs := Divides(rest);
    xs := [x] + xs;
  }

  /** A text, its first piece and what follows. */
  predicate Opens(text: string, x: Piece, rest: string) {
    Proper(x) && Stands(x, rest) && text == Show(x) + rest && |rest| < |text|
  }

  lemma FirstPiece(text: string) returns (x: Piece, rest: string)
    requires text != ""
    ensures Opens(text, x, rest)
  {
    if text[0] == '"' {
      x, rest := FirstLiteral(text);
    } else if text[0] != '/' {
      x, rest := Plain(text[0]), text[1..];
    } else {
      x, rest := FirstSlash(text);
    }
  }

  lemma FirstLiteral(text: string) returns (x: Piece, rest: string)
    requires text != "" && text[0] == '"'
    ensures Opens(text, x, rest)
  {
    var body, closed;
    body, closed, rest := TakeLiteral(text[1..]);
    x := if closed then Literal(body) else OpenLiteral(body);
    assert text == "\"" + text[1..];
  }

  lemma FirstSlash(text: string) returns (x: Piece, rest: string)
    requires text != "" && text[0] == '/'
    ensures Opens(text, x, rest)
  {
    if |text| >= 2 && text[1] == '/' {
      var body;
      body, rest := TakeLine(text[2..]);
      x := LineNote(body);
      assert text == "//" + text[2..];
    } else if |text| >= 2 && text[1] == '*' {
      var body, closed;
      body, closed, rest := TakeNote(text[2..]);
      x := if closed then BlockNote(body) else OpenNote(body);
      assert text == "/*" + text[2..];
    } else {
      x, rest := LoneSlash, text[1..];
      assert text == "/" + text[1..];
    }
  }

  /** So the meaning of cleaning is that of every text. */
  lemma CleanAnyText(text: string) returns (xs: seq<Piece>)
    ensures Division(xs) && ShowAll(xs) == text && Clean(text) == Join(NonBlank(Split(LeftAll(xs))))
  {
    xs := Divides(text);
    CleanMeaning(xs);
  }

  // ---------------------------------------------------------------- two consequences

  /** A text without slashes loses nothing but blank lines. */
  lemma {:induction false} NoSlashScan(m: Mode, text: string)
    requires '/' !in text && (m == Normal || m == Str || m == Esc)
    ensures Scan(m, text) == text
    decreases |text|
  {
    if text != "" {
      ScanCons(m, text);
      NoSlashScan(Feed(m, text[0]).0, text[1..]);
      assert text == [text[0]] + text[1..];
    }
  }

  lemma NoSlashUntouched(text: string)
    requires '/' !in text
    ensures Clean(text) == Join(NonBlank(Split(text)))
  {
    CleanIsWholeScan(text);
    NoSlashScan(Normal, text);
  }

  /** A line that is not dropped is in the result. */
  lemma {:induction false} JoinHolds(before: seq<string>, line: string, after: seq<string>)
    returns (pre: string, post: string)
    ensures Join(before + [line] + after) == pre + line + post
  {
    var all := before + [line] + after;
    if before == [] {
      pre, post := "", if after == [] then "" else "\n" + Join(after);
      assert all[1..] == after;
    } else {
      pre, post := JoinHolds(before[1..], line, after);
      assert all[1..] == before[1..] + [line] + after;
      assert before[0] + "\n" + (pre + line + post) == (before[0] + "\n" + pre) + line + post;
      pre := before[0] + "\n" + pre;
    }
  }

  lemma SplitAround(x: string, s: string, y: string)
    requires OneLine(s)
    ensures Split(x + s + y) == Split(x)[..|Split(x)| - 1] + [LastLine(x) + s + FirstLine(y)] + Split(y)[1..]
  {
    var front, a := Split(x)[..|Split(x)| - 1], LastLine(x);
    SplitOneLine(s);
    SplitConcat(x, s);
    assert Split(x + s) == front + [a + s] && Split(x + s)[..|front|] == front;
    SplitConcat(x + s, y);
  }

  lemma TextStays(x: string, s: string, y: string) returns (pre: string, post: string)
    requires OneLine(s) && !Blank(s)
    ensures Join(NonBlank(Split(x + s + y))) == pre + s + post
  {
    var a, b := LastLine(x), FirstLine(y);
    var front, back, line := Split(x)[..|Split(x)| - 1], Split(y)[1..], a + s + b;
    SplitAround(x, s, y);
    BlankConcat(a, s);
    BlankConcat(a + s, b);
    pre, post := LineStays(front, line, back);
    Around(pre, a, s, b, post);
    pre, post := pre + a, b + post;
  }

  lemma LineStays(front: seq<string>, line: string, back: seq<string>) returns (pre: string, post: string)
    requires !Blank(line)
    ensures Join(NonBlank(front + [line] + back)) == pre + line + post
  {
    NonBlankSplit(front + [line], back);
    NonBlankSplit(front, [line]);
    NonBlankFixed([line]);
    pre, post := JoinHolds(NonBlank(front), line, NonBlank(back));
  }

  lemma Around<T>(pre: seq<T>, a: seq<T>, s: seq<T>, b: seq<T>, post: seq<T>)
    ensures pre + (a + s + b) + post == (pre + a) + s + (b + post)
  {
  }

  /** What is left of a piece within a line is in the result, unless it is blank. */
  lemma PieceStays(before: seq<Piece>, x: Piece, after: seq<Piece>) returns (pre: string, post: string)
    requires Division(before + [x] + after) && OneLine(Left(x)) && !Blank(Left(x))
    ensures Clean(ShowAll(before + [x] + after)) == pre + Left(x) + post
  {
    CleanMeaning(before + [x] + after);
    LeftSplit(before + [x], after);
    LeftSplit(before, [x]);
    assert LeftAll([x]) == Left(x);
    pre, post := TextStays(LeftAll(before), Left(x), LeftAll(after));
  }

  /** The result holds every string literal of the text, character for character. */
  lemma LiteralSurvives(before: seq<Piece>, body: string, after: seq<Piece>) returns (pre: string, post: string)
    requires Division(before + [Literal(body)] + after)
    ensures Clean(ShowAll(before + [Literal(body)] + after)) == pre + ("\"" + body + "\"") + post
  {
    DivisionMember(before, Literal(body), after);
    LiteralVisible(body);
    pre, post := PieceStays(before, Literal(body), after);
  }

  lemma LiteralVisible(body: string)
    requires LiteralBody(body)
    ensures OneLine("\"" + body + "\"") && !Blank("\"" + body + "\"")
  {
    LiteralOneLine(body);
    var lit := "\"" + body + "\"";
    assert lit[0] == '"' && !IsSpace(lit[0]);
  }

  lemma {:induction false} LeftSplit(xs: seq<Piece>, ys: seq<Piece>)
    ensures LeftAll(xs + ys) == LeftAll(xs) + LeftAll(ys)
  {
    if xs == [] {
      assert xs + ys == ys;
    } else {
      assert (xs + ys)[1..] == xs[1..] + ys;
      LeftSplit(xs[1..], ys);
    }
  }

  lemma {:induction false} DivisionMember(before: seq<Piece>, x: Piece, after: seq<Piece>)
    requires Division(before + [x] + after)
    ensures Proper(x)
  {
    if before != [] {
      assert (before + [x] + after)[1..] == before[1..] + [x] + after;
      DivisionMember(before[1..], x, after);
    }
  }

  lemma {:induction false} LiteralOneLine(b: string)
    requires LiteralBody(b)
    ensures OneLine(b)
  {
    if b != "" {
      LiteralOneLine(b[if b[0] == '\\' then 2 else 1..]);
    }
  }
}
