/** Stripping comments from configuration text (cmd/edr-agent/main.go). */
module CleanJson {
  import opened Text
  import opened Seqs

  // ---------------------------------------------------------------- a whole-text scanner

  /** Where a reader of commented JSON can be.  A newline ends line comments and strings: raw
      newlines are illegal inside JSON strings (section 7 of RFC 8259). */
  datatype Mode = Normal | Slash | Str | Esc | Block | Star | Line

  function Feed(m: Mode, c: char): (Mode, string) {
    match m
    case Normal => if c == '"' then (Str, [c]) else if c == '/' then (Slash, "") else (Normal, [c])
    case Slash =>
      if c == '/' then (Line, "") else if c == '*' then (Block, "")
      else if c == '"' then (Str, ['/', c]) else (Normal, ['/', c])
    case Str => if c == '\n' || c == '"' then (Normal, [c]) else if c == '\\' then (Esc, [c]) else (Str, [c])
    case Esc => if c == '\n' then (Normal, [c]) else (Str, [c])
    case Block => if c == '\n' then (Block, [c]) else if c == '*' then (Star, "") else (Block, "")
    case Star =>
      if c == '\n' then (Block, [c]) else if c == '/' then (Normal, "") else if c == '*' then (Star, "")
      else (Block, "")
    case Line => if c == '\n' then (Normal, [c]) else (Line, "")
  }

  function End(m: Mode, text: string): Mode
    decreases |text|
  {
    if text == "" then m else End(Feed(m, text[0]).0, text[1..])
  }

  /** What the scanner has let through by the end of `text`. */
  function Emit(m: Mode, text: string): string
    decreases |text|
  {
    if text == "" then "" else Feed(m, text[0]).1 + Emit(Feed(m, text[0]).0, text[1..])
  }

  function Flush(m: Mode): string {
    if m == Slash then "/" else ""
  }

  /** The text without its comments. */
  function Scan(m: Mode, text: string): string {
    Emit(m, text) + Flush(End(m, text))
  }

  predicate InBlock(m: Mode) {
    m == Block || m == Star
  }

  function Entry(inBlock: bool): Mode {
    if inBlock then Block else Normal
  }

  lemma {:induction false} EndSplit(m: Mode, a: string, b: string)
    ensures End(m, a + b) == End(End(m, a), b)
    decreases |a|
  {
    if a == "" {
      assert a + b == b;
    } else {
      assert (a + b)[1..] == a[1..] + b;
      EndSplit(Feed(m, a[0]).0, a[1..], b);
    }
  }

  lemma {:induction false} EmitSplit(m: Mode, a: string, b: string)
    ensures Emit(m, a + b) == Emit(m, a) + Emit(End(m, a), b)
    decreases |a|
  {
    if a == "" {
      assert a + b == b;
    } else {
      assert (a + b)[1..] == a[1..] + b;
      var next := Feed(m, a[0]).0;
      EmitSplit(next, a[1..], b);
      Assoc(Feed(m, a[0]).1, Emit(next, a[1..]), Emit(End(m, a), b));
    }
  }

  lemma ScanSplit(m: Mode, a: string, b: string)
    ensures End(m, a + b) == End(End(m, a), b)
    ensures Emit(m, a + b) == Emit(m, a) + Emit(End(m, a), b)
  {
    EndSplit(m, a, b);
    EmitSplit(m, a, b);
  }

  lemma ScanConcat(m: Mode, a: string, b: string)
    ensures Scan(m, a + b) == Emit(m, a) + Scan(End(m, a), b)
  {
    ScanSplit(m, a, b);
    Assoc(Emit(m, a), Emit(End(m, a), b), Flush(End(m, a + b)));
  }

  lemma One(m: Mode, c: char)
    ensures End(m, [c]) == Feed(m, c).0 && Emit(m, [c]) == Feed(m, c).1
  {
    assert [c][1..] == "";
  }

  lemma Two(m: Mode, c: char, d: char)
    ensures End(m, [c, d]) == Feed(Feed(m, c).0, d).0 && Emit(m, [c, d]) == Feed(m, c).1 + Feed(Feed(m, c).0, d).1
  {
    assert [c, d] == [c] + [d];
    ScanSplit(m, [c], [d]);
    One(m, c);
    One(Feed(m, c).0, d);
  }

  lemma ScanCons(m: Mode, text: string)
    requires text != ""
    ensures Scan(m, text) == Feed(m, text[0]).1 + Scan(Feed(m, text[0]).0, text[1..])
    ensures End(m, text) == End(Feed(m, text[0]).0, text[1..])
  {
  }

  // ---------------------------------------------------------------- one line at a time

  predicate OneLine(s: string) {
    forall i :: 0 <= i < |s| ==> s[i] != '\n'
  }

  lemma {:induction false} LineSilent(s: string)
    requires OneLine(s)
    ensures Scan(Line, s) == "" && End(Line, s) == Line
    decreases |s|
  {
    if s != "" {
      LineSilent(s[1..]);
    }
  }

  lemma SlashIsText(s: string)
    requires OneLine(s) && (s == "" || (s[0] != '/' && s[0] != '*'))
    ensures Scan(Slash, s) == "/" + Scan(Normal, s) && InBlock(End(Slash, s)) == InBlock(End(Normal, s))
  {
    if s != "" {
      ScanCons(Slash, s);
      ScanCons(Normal, s);
    }
  }

  function ModeOf(inBlock: bool, escape: bool, inString: bool): Mode {
    if inBlock then Block else if escape then Esc else if inString then Str else Normal
  }

  /** Having let `out` through, the scanner is at `m` before position `i`, on its way from `m0`. */
  ghost predicate OnTheWay(m0: Mode, line: string, m: Mode, i: nat, out: string)
    requires i <= |line|
  {
    Scan(m0, line) == out + Scan(m, line[i..]) && InBlock(End(m0, line)) == InBlock(End(m, line[i..]))
  }

  lemma Advance(m0: Mode, line: string, m: Mode, i: nat, out: string)
    requires i < |line| && OnTheWay(m0, line, m, i, out)
    ensures OnTheWay(m0, line, Feed(m, line[i]).0, i + 1, out + Feed(m, line[i]).1)
  {
    ScanCons(m, line[i..]);
    assert line[i..][1..] == line[i + 1..];
    assert out + (Feed(m, line[i]).1 + Scan(Feed(m, line[i]).0, line[i + 1..]))
        == (out + Feed(m, line[i]).1) + Scan(Feed(m, line[i]).0, line[i + 1..]);
  }

  lemma CloseBlock(m0: Mode, line: string, i: nat, out: string)
    requires i + 1 < |line| && line[i] == '*' && line[i + 1] == '/' && OnTheWay(m0, line, Block, i, out)
    ensures OnTheWay(m0, line, Normal, i + 2, out)
  {
    Advance(m0, line, Block, i, out);
    assert out + "" == out;
    Advance(m0, line, Star, i + 1, out);
  }

  lemma SkipInBlock(m0: Mode, line: string, i: nat, out: string)
    requires OneLine(line) && i < |line| && OnTheWay(m0, line, Block, i, out)
    requires !(line[i] == '*' && i + 1 < |line| && line[i + 1] == '/')
    ensures OnTheWay(m0, line, Block, i + 1, out)
  {
    Advance(m0, line, Block, i, out);
    assert out + "" == out;
  }

  lemma OpenComment(m0: Mode, line: string, i: nat, out: string)
    requires i + 1 < |line| && line[i] == '/' && (line[i + 1] == '/' || line[i + 1] == '*')
    requires OnTheWay(m0, line, Normal, i, out)
    ensures OnTheWay(m0, line, if line[i + 1] == '/' then Line else Block, i + 2, out)
  {
    Advance(m0, line, Normal, i, out);
    assert out + "" == out;
    Advance(m0, line, Slash, i + 1, out);
  }

  lemma PlainSlash(m0: Mode, line: string, i: nat, out: string)
    requires OneLine(line) && i < |line| && line[i] == '/' && OnTheWay(m0, line, Normal, i, out)
    requires !(i + 1 < |line| && (line[i + 1] == '/' || line[i + 1] == '*'))
    ensures OnTheWay(m0, line, Normal, i + 1, out + "/")
  {
    Advance(m0, line, Normal, i, out);
    assert out + "" == out;
    SlashIsText(line[i + 1..]);
    assert out + ("/" + Scan(Normal, line[i + 1..])) == (out + "/") + Scan(Normal, line[i + 1..]);
  }

  /** The line stripper with its flags and one character of lookahead. */
  method StripComments(line: string, startInBlock: bool) returns (cleaned: string, inBlock: bool)
    requires OneLine(line)
    ensures cleaned == Scan(Entry(startInBlock), line)
    ensures inBlock == InBlock(End(Entry(startInBlock), line))
  {
    ghost var m0 := Entry(startInBlock);
    inBlock := startInBlock;
    var inString, escape := false, false;
    cleaned := "";
    var i := 0;
    assert line[0..] == line && "" + Scan(m0, line) == Scan(m0, line);
    while i < |line|
      invariant 0 <= i <= |line|
      invariant (inBlock ==> !inString) && (escape ==> inString)
      invariant OnTheWay(m0, line, ModeOf(inBlock, escape, inString), i, cleaned)
      decreases |line| - i
    {
      var ch := line[i];
      if inBlock {
        if ch == '*' && i + 1 < |line| && line[i + 1] == '/' {
          CloseBlock(m0, line, i, cleaned);
          inBlock := false;
          i := i + 2;
          continue;
        }
        SkipInBlock(m0, line, i, cleaned);
        i := i + 1;
        continue;
      }
      if inString || ch != '/' {
        Advance(m0, line, ModeOf(inBlock, escape, inString), i, cleaned);
      }
      if escape {
        cleaned := cleaned + [ch];
        escape := false;
        i := i + 1;
        continue;
      }
      if inString {
        if ch == '\\' {
          escape := true;
        } else if ch == '"' {
          inString := false;
        }
        cleaned := cleaned + [ch];
        i := i + 1;
        continue;
      }
      if ch == '"' {
        inString := true;
        cleaned := cleaned + [ch];
        i := i + 1;
        continue;
      }
      if ch == '/' && i + 1 < |line| {
        if line[i + 1] == '/' {
          OpenComment(m0, line, i, cleaned);
          LineSilent(line[i + 2..]);
          return;
        }
        if line[i + 1] == '*' {
          OpenComment(m0, line, i, cleaned);
          inBlock := true;
          i := i + 2;
          continue;
        }
      }
      if ch == '/' {
        PlainSlash(m0, line, i, cleaned);
      }
      cleaned := cleaned + [ch];
      i := i + 1;
    }
  }

  // ---------------------------------------------------------------- the whole configuration

  function Split(text: string): (lines: seq<string>)
    ensures lines != [] && forall i :: 0 <= i < |lines| ==> OneLine(lines[i])
  {
    if text == "" then [""]
    else if text[0] == '\n' then [""] + Split(text[1..])
    else var rest := Split(text[1..]); [[text[0]] + rest[0]] + rest[1..]
  }

  function Join(lines: seq<string>): string {
    if lines == [] then "" else if |lines| == 1 then lines[0] else lines[0] + "\n" + Join(lines[1..])
  }

  function StripAll(inBlock: bool, lines: seq<string>): seq<string>
    decreases |lines|
  {
    if lines == [] then [] else
    [Scan(Entry(inBlock), lines[0])] + StripAll(InBlock(End(Entry(inBlock), lines[0])), lines[1..])
  }

  function NonBlank(lines: seq<string>): seq<string> {
    if lines == [] then [] else (if Blank(lines[0]) then [] else [lines[0]]) + NonBlank(lines[1..])
  }

  function Clean(raw: string): string {
    Join(NonBlank(StripAll(false, Split(raw))))
  }

  method CleanJSON(raw: string) returns (cleaned: string)
    ensures cleaned == Clean(raw)
  {
    var lines := Split(raw);
    var out: seq<string> := [];
    var inBlock := false;
    for i := 0 to |lines|
      invariant out + NonBlank(StripAll(inBlock, lines[i..])) == NonBlank(StripAll(false, lines))
    {
      KeepCons(inBlock, lines, i, out);
      var line;
      line, inBlock := StripComments(lines[i], inBlock);
      if Blank(line) {
        continue;
      }
      out := out + [line];
    }
    assert lines[|lines|..] == [] && out + [] == out;
    cleaned := Join(out);
  }

  lemma KeepCons(inBlock: bool, lines: seq<string>, i: nat, out: seq<string>)
    requires i < |lines|
    ensures var line := Scan(Entry(inBlock), lines[i]);
            var rest := NonBlank(StripAll(InBlock(End(Entry(inBlock), lines[i])), lines[i + 1..]));
            out + NonBlank(StripAll(inBlock, lines[i..])) == if Blank(line) then out + rest else (out + [line]) + rest
  {
    var line := Scan(Entry(inBlock), lines[i]);
    var rest := StripAll(InBlock(End(Entry(inBlock), lines[i])), lines[i + 1..]);
    StripCons(inBlock, lines, i);
    NonBlankCons(line, rest);
    Assoc(out, [line], NonBlank(rest));
  }

  lemma StripCons(inBlock: bool, lines: seq<string>, i: nat)
    requires i < |lines|
    ensures StripAll(inBlock, lines[i..]) ==
            [Scan(Entry(inBlock), lines[i])] + StripAll(InBlock(End(Entry(inBlock), lines[i])), lines[i + 1..])
  {
    assert lines[i..][1..] == lines[i + 1..];
  }

  lemma NonBlankCons(line: string, rest: seq<string>)
    ensures NonBlank([line] + rest) == if Blank(line) then NonBlank(rest) else [line] + NonBlank(rest)
  {
    assert ([line] + rest)[1..] == rest;
  }

  lemma {:induction false} JoinSplit(text: string)
    ensures Join(Split(text)) == text
    decreases |text|
  {
    if text != "" {
      JoinSplit(text[1..]);
      var rest := Split(text[1..]);
      if text[0] == '\n' {
        assert Split(text)[1..] == rest;
      } else {
        assert Split(text)[1..] == rest[1..];
        assert [text[0]] + Join(rest) == Join(Split(text));
      }
    }
  }

  lemma {:induction false} SplitLine(x: string, y: string)
    requires OneLine(x)
    ensures Split(x + "\n" + y) == [x] + Split(y)
    decreases |x|
  {
    if x == "" {
      assert (x + "\n" + y)[1..] == y;
    } else {
      assert (x + "\n" + y)[1..] == x[1..] + "\n" + y;
      SplitLine(x[1..], y);
      assert [x[0]] + x[1..] == x;
    }
  }

  lemma {:induction false} SplitOneLine(x: string)
    requires OneLine(x)
    ensures Split(x) == [x]
    decreases |x|
  {
    if x != "" {
      SplitOneLine(x[1..]);
      assert [x[0]] + x[1..] == x;
    }
  }

  ghost predicate AllOneLine(lines: seq<string>) {
    forall i :: 0 <= i < |lines| ==> OneLine(lines[i])
  }

  lemma {:induction false} SplitJoin(lines: seq<string>)
    requires lines != [] && AllOneLine(lines)
    ensures Split(Join(lines)) == lines
    decreases |lines|
  {
    if |lines| == 1 {
      SplitOneLine(lines[0]);
    } else {
      SplitJoin(lines[1..]);
      SplitLine(lines[0], Join(lines[1..]));
    }
  }

  lemma {:induction false} ScanOneLine(m: Mode, s: string)
    requires OneLine(s)
    ensures OneLine(Scan(m, s))
    decreases |s|
  {
    if s != "" {
      ScanCons(m, s);
      ScanOneLine(Feed(m, s[0]).0, s[1..]);
    }
  }

  /** Across a line break the scanner carries over only whether it is inside a block comment. */
  lemma ScanAcross(m: Mode, x: string, y: string)
    ensures Scan(m, x + "\n" + y) == Scan(m, x) + "\n" + Scan(Entry(InBlock(End(m, x))), y)
  {
    var e := End(m, x);
    Assoc(x, "\n", y);
    ScanConcat(m, x, "\n" + y);
    AfterBreak(e, y);
    var tail := Scan(Entry(InBlock(e)), y);
    Assoc(Emit(m, x), Flush(e) + "\n", tail);
    Assoc(Emit(m, x), Flush(e), "\n");
  }

  lemma AfterBreak(e: Mode, y: string)
    ensures Scan(e, "\n" + y) == (Flush(e) + "\n") + Scan(Entry(InBlock(e)), y)
  {
    ScanCons(e, "\n" + y);
    assert ("\n" + y)[1..] == y;
    NewlineFeed(e);
  }

  lemma NewlineFeed(e: Mode)
    ensures Feed(e, '\n').0 == Entry(InBlock(e)) && Feed(e, '\n').1 == Flush(e) + "\n"
  {
  }

  lemma {:induction false} ScanLines(inBlock: bool, lines: seq<string>)
    requires lines != [] && AllOneLine(lines)
    ensures Scan(Entry(inBlock), Join(lines)) == Join(StripAll(inBlock, lines))
    ensures StripAll(inBlock, lines) != [] && AllOneLine(StripAll(inBlock, lines))
    decreases |lines|
  {
    var m := Entry(inBlock);
    ScanOneLine(m, lines[0]);
    if |lines| == 1 {
      assert StripAll(inBlock, lines) == [Scan(m, lines[0])];
    } else {
      var next := InBlock(End(m, lines[0]));
      ScanLines(next, lines[1..]);
      ScanAcross(m, lines[0], Join(lines[1..]));
      assert StripAll(inBlock, lines)[1..] == StripAll(next, lines[1..]);
    }
  }

  /** Stripping line by line is scanning the whole text at once and then dropping blank lines. */
  lemma CleanIsWholeScan(raw: string)
    ensures Clean(raw) == Join(NonBlank(Split(Scan(Normal, raw))))
  {
    var lines := Split(raw);
    JoinSplit(raw);
    ScanLines(false, lines);
    SplitJoin(StripAll(false, lines));
  }

  // ---------------------------------------------------------------- cleaning twice

  /** Where a scanner of the output is when the scanner of the input is at `m`. */
  function Settle(m: Mode): Mode {
    if m == Str || m == Esc then m else Normal
  }

  lemma FeedSettled(m: Mode, c: char)
    ensures var (next, o) := Feed(m, c);
            End(Settle(m), o) == Settle(next) && Emit(Settle(m), o) == o
  {
    var (next, o) := Feed(m, c);
    if |o| == 1 {
      assert o == [c];
      One(Settle(m), c);
    } else if |o| == 2 {
      Two(Normal, '/', c);
    }
  }

  /** The output holds no comment: scanning it again changes nothing. */
  lemma {:induction false} ScanTwice(m: Mode, text: string)
    ensures Scan(Settle(m), Scan(m, text)) == Scan(m, text)
    ensures !InBlock(End(Settle(m), Scan(m, text)))
    decreases |text|
  {
    if text == "" {
      assert Scan(m, "") == Flush(m);
      One(Normal, '/');
      assert ['/'] == "/" && Scan(Normal, "/") == "/";
    } else {
      var (next, o) := Feed(m, text[0]);
      ScanCons(m, text);
      FeedSettled(m, text[0]);
      ScanTwice(next, text[1..]);
      ScanConcat(Settle(m), o, Scan(next, text[1..]));
      ScanSplit(Settle(m), o, Scan(next, text[1..]));
    }
  }

  ghost predicate CommentFree(lines: seq<string>) {
    forall i :: 0 <= i < |lines| ==> Scan(Normal, lines[i]) == lines[i] && !InBlock(End(Normal, lines[i]))
  }

  lemma {:induction false} StrippedIsFree(inBlock: bool, lines: seq<string>)
    ensures CommentFree(StripAll(inBlock, lines))
    decreases |lines|
  {
    if lines != [] {
      ScanTwice(Entry(inBlock), lines[0]);
      StrippedIsFree(InBlock(End(Entry(inBlock), lines[0])), lines[1..]);
    }
  }

  lemma {:induction false} FreeIsFixed(lines: seq<string>)
    requires CommentFree(lines)
    ensures StripAll(false, lines) == lines
    decreases |lines|
  {
    if lines != [] {
      FreeIsFixed(lines[1..]);
    }
  }

  lemma {:induction false} NonBlankMembers(lines: seq<string>)
    ensures forall x :: x in NonBlank(lines) <==> x in lines && !Blank(x)
  {
    if lines != [] {
      NonBlankMembers(lines[1..]);
      assert lines == [lines[0]] + lines[1..];
    }
  }

  lemma {:induction false} NonBlankFixed(lines: seq<string>)
    requires forall i :: 0 <= i < |lines| ==> !Blank(lines[i])
    ensures NonBlank(lines) == lines
  {
    if lines != [] {
      NonBlankFixed(lines[1..]);
    }
  }

  /** Cleaning is idempotent. */
  lemma CleanTwice(raw: string)
    ensures Clean(Clean(raw)) == Clean(raw)
  {
    var stripped := StripAll(false, Split(raw));
    var kept := NonBlank(stripped);
    StrippedIsFree(false, Split(raw));
    ScanLines(false, Split(raw));
    NonBlankMembers(stripped);
    forall i | 0 <= i < |kept|
      ensures !Blank(kept[i]) && OneLine(kept[i]) && Scan(Normal, kept[i]) == kept[i] && !InBlock(End(Normal, kept[i]))
    {
      assert kept[i] in kept;
    }
    if kept == [] {
      assert StripAll(false, [""]) == [""];
      assert NonBlank([""]) == [];
    } else {
      SplitJoin(kept);
      FreeIsFixed(kept);
      NonBlankFixed(kept);
    }
  }

  // ---------------------------------------------------------------- inserting comments

  predicate NoClose(c: string) {
    forall i :: 0 <= i < |c| - 1 ==> !(c[i] == '*' && c[i + 1] == '/')
  }

  /** The newlines of a text and nothing else. */
  function Newlines(c: string): string {
    if c == "" then "" else (if c[0] == '\n' then "\n" else "") + Newlines(c[1..])
  }

  lemma {:induction false} NewlinesEmpty(c: string)
    ensures Newlines(c) == "" <==> OneLine(c)
  {
    if c != "" {
      NewlinesEmpty(c[1..]);
      assert c == [c[0]] + c[1..];
    }
  }

  /** Inside a block comment only the newlines get through, line after line. */
  lemma {:induction false} BlockBody(m: Mode, c: string)
    requires InBlock(m) && NoClose(c) && (m == Star ==> c == "" || c[0] != '/')
    ensures InBlock(End(m, c)) && Emit(m, c) == Newlines(c)
    decreases |c|
  {
    if c != "" {
      BlockBody(Feed(m, c[0]).0, c[1..]);
    }
  }

  lemma {:induction false} NewlinesPass(c: string)
    ensures End(Normal, Newlines(c)) == Normal && Emit(Normal, Newlines(c)) == Newlines(c)
    decreases |c|
  {
    if c != "" {
      NewlinesPass(c[1..]);
      One(Normal, '\n');
      ScanSplit(Normal, if c[0] == '\n' then "\n" else "", Newlines(c[1..]));
    }
  }

  /** A piece of text that leaves the scanner where it was. */
  lemma PieceScan(a: string, piece: string, b: string)
    requires End(Normal, a) == Normal && End(Normal, piece) == Normal
    ensures Scan(Normal, a + piece + b) == Scan(Normal, a) + Emit(Normal, piece) + Scan(Normal, b)
  {
    assert a + piece + b == a + (piece + b);
    ScanConcat(Normal, a, piece + b);
    ScanConcat(Normal, piece, b);
    Assoc(Emit(Normal, a), Emit(Normal, piece), Scan(Normal, b));
    assert Scan(Normal, a) == Emit(Normal, a);
  }

  lemma BlockCommentEmits(c: string)
    requires NoClose(c)
    ensures End(Normal, "/*" + c + "*/") == Normal && Emit(Normal, "/*" + c + "*/") == Newlines(c)
  {
    BlockBody(Block, c);
    ScanSplit(Normal, "/*" + c, "*/");
    ScanSplit(Normal, "/*", c);
    Two(Normal, '/', '*');
    Two(End(Block, c), '*', '/');
  }

  /** What a piece of text that emits only the newlines of `c` does to the result. */
  lemma PieceClean(a: string, piece: string, c: string, b: string)
    requires End(Normal, a) == Normal && End(Normal, piece) == Normal && Emit(Normal, piece) == Newlines(c)
    ensures Clean(a + piece + b) == Join(NonBlank(Split(Scan(Normal, a) + Newlines(c) + Scan(Normal, b))))
  {
    PieceScan(a, piece, b);
    CleanIsWholeScan(a + piece + b);
  }

  lemma CleanConcat(a: string, b: string)
    requires End(Normal, a) == Normal
    ensures Clean(a + b) == Join(NonBlank(Split(Scan(Normal, a) + Scan(Normal, b))))
  {
    PieceClean(a, "", "", b);
    NoNewlines(a, "", b);
    NoNewlines(Scan(Normal, a), "", Scan(Normal, b));
  }

  /** A block comment, over however many lines, put anywhere outside strings and comments (except
      right after a slash that would pair up with it) counts for the newlines in it. */
  lemma BlockCommentIsNewlines(a: string, c: string, b: string)
    requires End(Normal, a) == Normal && NoClose(c)
    ensures Clean(a + ("/*" + c + "*/") + b) == Clean(a + Newlines(c) + b)
  {
    BlockCommentEmits(c);
    NewlinesPass(c);
    PieceClean(a, "/*" + c + "*/", c, b);
    PieceClean(a, Newlines(c), c, b);
  }

  lemma NoNewlines(a: string, c: string, b: string)
    requires OneLine(c)
    ensures a + Newlines(c) + b == a + b
  {
    NewlinesEmpty(c);
  }

  /** One within a line leaves no trace. */
  lemma BlockCommentUndone(a: string, c: string, b: string)
    requires End(Normal, a) == Normal && OneLine(c) && NoClose(c)
    ensures Clean(a + ("/*" + c + "*/") + b) == Clean(a + b)
  {
    BlockCommentIsNewlines(a, c, b);
    NoNewlines(a, c, b);
  }

  function FirstLine(text: string): string {
    Split(text)[0]
  }

  function LastLine(text: string): string {
    Split(text)[|Split(text)| - 1]
  }

  /** Putting two texts together joins the last line of one and the first line of the other. */
  lemma {:induction false} SplitConcat(x: string, y: string)
    ensures Split(x + y) == Split(x)[..|Split(x)| - 1] + [LastLine(x) + FirstLine(y)] + Split(y)[1..]
    decreases |x|
  {
    if x == "" {
      assert x + y == y && Split(x) == [""] && "" + FirstLine(y) == FirstLine(y);
      assert Split(x)[..0] == [] && Split(y) == [] + [FirstLine(y)] + Split(y)[1..];
    } else {
      var rest := Split(x[1..]);
      assert (x + y)[1..] == x[1..] + y;
      SplitConcat(x[1..], y);
      SplitConcatStep(x[0], rest, Split(x[1..] + y), FirstLine(y), Split(y)[1..]);
    }
  }

  /** One more character in front. */
  lemma SplitConcatStep(c: char, rest: seq<string>, all: seq<string>, first: string, tail: seq<string>)
    requires rest != [] && all == rest[..|rest| - 1] + [rest[|rest| - 1] + first] + tail
    ensures var x := if c == '\n' then [""] + rest else [[c] + rest[0]] + rest[1..];
            (if c == '\n' then [""] + all else [[c] + all[0]] + all[1..])
            == x[..|x| - 1] + [x[|x| - 1] + first] + tail
  {
    if c != '\n' && |rest| == 1 {
      assert [c] + (rest[0] + first) == ([c] + rest[0]) + first;
    }
  }

  lemma {:induction false} NonBlankSplit(x: seq<string>, y: seq<string>)
    ensures NonBlank(x + y) == NonBlank(x) + NonBlank(y)
  {
    if x == [] {
      assert x + y == y;
    } else {
      var head, rest := x[0], x[1..];
      NonBlankSplit(rest, y);
      assert x == [head] + rest;
      Assoc([head], rest, y);
      NonBlankCons(head, rest + y);
      NonBlankCons(head, rest);
      Assoc([head], NonBlank(rest), NonBlank(y));
    }
  }

  /** A newline between two texts keeps their lines apart. */
  lemma {:induction false} SplitNewlines(x: string, c: string, y: string)
    requires !OneLine(c)
    ensures NonBlank(Split(x + Newlines(c) + y)) == NonBlank(Split(x)) + NonBlank(Split(y))
    decreases |c|
  {
    var rest := Newlines(c[1..]);
    assert c == [c[0]] + c[1..];
    if c[0] != '\n' {
      assert Newlines(c) == rest;
      SplitNewlines(x, c[1..], y);
    } else {
      assert x + Newlines(c) + y == x + "\n" + (rest + y);
      SplitAtBreak(x, rest + y);
      NonBlankSplit(Split(x), Split(rest + y));
      LeadingNewlines(c[1..], y);
    }
  }

  lemma {:induction false} SplitAtBreak(x: string, y: string)
    ensures Split(x + "\n" + y) == Split(x) + Split(y)
    decreases |x|
  {
    if x == "" {
      SplitLine(x, y);
    } else {
      assert (x + "\n" + y)[1..] == x[1..] + "\n" + y;
      SplitAtBreak(x[1..], y);
    }
  }

  lemma {:induction false} LeadingNewlines(c: string, y: string)
    ensures NonBlank(Split(Newlines(c) + y)) == NonBlank(Split(y))
    decreases |c|
  {
    if c == "" {
      assert Newlines(c) + y == y;
    } else {
      LeadingNewlines(c[1..], y);
      if c[0] == '\n' {
        assert Newlines(c) + y == "\n" + (Newlines(c[1..]) + y);
        LeadingBreak(Newlines(c[1..]) + y);
      } else {
        assert Newlines(c) == Newlines(c[1..]);
      }
    }
  }

  lemma LeadingBreak(y: string)
    ensures NonBlank(Split("\n" + y)) == NonBlank(Split(y))
  {
    assert "" + "\n" + y == "\n" + y;
    SplitLine("", y);
    NonBlankCons("", Split(y));
  }

  ghost predicate AllText(lines: seq<string>) {
    forall i :: 0 <= i < |lines| ==> !Blank(lines[i]) && OneLine(lines[i])
  }

  lemma NonBlankIsText(text: string)
    ensures AllText(NonBlank(Split(text)))
  {
    NonBlankMembers(Split(text));
    var kept := NonBlank(Split(text));
    forall i | 0 <= i < |kept|
      ensures !Blank(kept[i]) && OneLine(kept[i])
    {
      assert kept[i] in kept;
    }
  }

  /** Lines with text in them can be told from the joined text. */
  lemma JoinUnique(x: seq<string>, y: seq<string>)
    requires AllText(x) && AllText(y) && Join(x) == Join(y)
    ensures x == y
  {
    if x != [] && y != [] {
      SplitJoin(x);
      SplitJoin(y);
    }
  }

  /** Dropping blank lines, `x` and `y` on two lines are the same as on one. */
  predicate JoinHarmless(x: string, y: string) {
    x == "" || y == "" || (Blank(x) && Blank(y))
  }

  lemma JoinedLine(x: string, y: string)
    ensures NonBlank([x]) + NonBlank([y]) == NonBlank([x + y]) <==> JoinHarmless(x, y)
  {
    assert NonBlank([x]) == if Blank(x) then [] else [x];
    assert NonBlank([y]) == if Blank(y) then [] else [y];
    assert NonBlank([x + y]) == if Blank(x + y) then [] else [x + y];
    BlankConcat(x, y);
    assert |x + y| == |x| + |y|;
    assert x + "" == x && "" + y == y;
    if !Blank(x) && Blank(y) && y != "" {
      assert ([x] + [])[0] == x && [x + y][0] == x + y;
    } else if Blank(x) && !Blank(y) && x != "" {
      assert ([] + [y])[0] == y && [x + y][0] == x + y;
    }
  }

  lemma BlankConcat(x: string, y: string)
    ensures Blank(x + y) <==> Blank(x) && Blank(y)
  {
    var all := x + y;
    assert forall i :: 0 <= i < |x| ==> all[i] == x[i];
    assert forall i :: 0 <= i < |y| ==> all[|x| + i] == y[i];
  }

  lemma Regroup<T>(p: seq<T>, x: seq<T>, y: seq<T>, s: seq<T>)
    ensures (p + x) + (y + s) == p + (x + y) + s
  {
    Assoc(p, x, y + s);
    Assoc(x, y, s);
    Assoc(p, x + y, s);
  }

  lemma SameEnds<T>(p: seq<T>, x: seq<T>, y: seq<T>, s: seq<T>)
    ensures p + x + s == p + y + s <==> x == y
  {
    if p + x + s == p + y + s {
      assert |x| == |y|;
      assert (p + x + s)[|p|..|p| + |x|] == x && (p + y + s)[|p|..|p| + |y|] == y;
    }
  }

  /** Texts with and without a line break between them, blank lines dropped. */
  lemma BreakMatters(x: string, y: string)
    ensures NonBlank(Split(x)) + NonBlank(Split(y)) == NonBlank(Split(x + y))
            <==> JoinHarmless(LastLine(x), FirstLine(y))
  {
    var front, back := Split(x)[..|Split(x)| - 1], Split(y)[1..];
    var one, two := LastLine(x), FirstLine(y);
    SplitConcat(x, y);
    NonBlankSplit(front + [one + two], back);
    NonBlankSplit(front, [one + two]);
    assert Split(x) == front + [one] && Split(y) == [two] + back;
    NonBlankSplit(front, [one]);
    NonBlankSplit([two], back);
    var p, s := NonBlank(front), NonBlank(back);
    Regroup(p, NonBlank([one]), NonBlank([two]), s);
    SameEnds(p, NonBlank([one]) + NonBlank([two]), NonBlank([one + two]), s);
    JoinedLine(one, two);
  }

  /** When a block comment leaves no trace: it lies within a line, or it takes nothing apart: one
      side of it has no text on its line, or both sides have only white space there. */
  lemma BlockCommentUndoneIff(a: string, c: string, b: string)
    requires End(Normal, a) == Normal && NoClose(c)
    ensures Clean(a + ("/*" + c + "*/") + b) == Clean(a + b) <==>
            OneLine(c) || JoinHarmless(LastLine(Scan(Normal, a)), FirstLine(Scan(Normal, b)))
  {
    if OneLine(c) {
      BlockCommentUndone(a, c, b);
    } else {
      BlockCommentEmits(c);
      PieceClean(a, "/*" + c + "*/", c, b);
      CleanConcat(a, b);
      NewlinesMatter(Scan(Normal, a), c, Scan(Normal, b));
    }
  }

  lemma NewlinesMatter(x: string, c: string, y: string)
    requires !OneLine(c)
    ensures Join(NonBlank(Split(x + Newlines(c) + y))) == Join(NonBlank(Split(x + y))) <==>
            JoinHarmless(LastLine(x), FirstLine(y))
  {
    SplitNewlines(x, c, y);
    BreakMatters(x, y);
    NonBlankIsText(x + Newlines(c) + y);
    NonBlankIsText(x + y);
    if Join(NonBlank(Split(x + Newlines(c) + y))) == Join(NonBlank(Split(x + y))) {
      JoinUnique(NonBlank(Split(x + Newlines(c) + y)), NonBlank(Split(x + y)));
    }
  }

  /** A comment with a line break in it takes a line apart. */
  lemma BreakRemains(a: string, c: string, b: string)
    requires End(Normal, a) == Normal && Scan(Normal, a) == a && OneLine(a) && !Blank(a)
    requires Scan(Normal, b) == b && OneLine(b) && !Blank(b)
    requires NoClose(c) && !OneLine(c)
    ensures Clean(a + ("/*" + c + "*/") + b) == a + "\n" + b
    ensures Clean(a + b) == a + b
  {
    BlockCommentEmits(c);
    PieceClean(a, "/*" + c + "*/", c, b);
    CleanConcat(a, b);
    BreakStays(a, c, b);
  }

  lemma BreakStays(a: string, c: string, b: string)
    requires OneLine(a) && !Blank(a) && OneLine(b) && !Blank(b) && !OneLine(c)
    ensures Join(NonBlank(Split(a + Newlines(c) + b))) == a + "\n" + b
    ensures Join(NonBlank(Split(a + b))) == a + b
  {
    SplitNewlines(a, c, b);
    TextLine(a);
    TextLine(b);
    BlankConcat(a, b);
    TextLine(a + b);
    assert [a] + [b] == [a, b] && [a, b][1..] == [b];
    assert Join([a, b]) == a + "\n" + Join([b]);
  }

  lemma TextLine(a: string)
    requires OneLine(a) && !Blank(a)
    ensures NonBlank(Split(a)) == [a] && Join([a]) == a
  {
    SplitOneLine(a);
    NonBlankFixed([a]);
  }

  /** So `1` and `2` with such a comment between them become two lines. */
  lemma BlockCommentSplitsLine()
    ensures Clean("1" + ("/*" + "\n" + "*/") + "2") == "1" + "\n" + "2"
    ensures Clean("1" + "2") == "1" + "2"
  {
    One(Normal, '1');
    One(Normal, '2');
    assert "1" == ['1'] && "2" == ['2'];
    assert !IsSpace("1"[0]) && !IsSpace("2"[0]) && "\n"[0] == '\n';
    BreakRemains("1", "\n", "2");
  }

  /** Nor does a line comment at the end of a line. */
  lemma LineCommentUndone(a: string, c: string, b: string)
    requires End(Normal, a) == Normal && OneLine(c) && (b == "" || b[0] == '\n')
    ensures Clean(a + ("//" + c) + b) == Clean(a + b)
  {
    var piece := "//" + c;
    LineComment(c);
    LineCommentScan(a, piece, b);
    CleanIsWholeScan(a + piece + b);
    CleanIsWholeScan(a + b);
  }

  lemma LineCommentScan(a: string, piece: string, b: string)
    requires End(Normal, a) == Normal && End(Normal, piece) == Line && Emit(Normal, piece) == ""
    requires b == "" || b[0] == '\n'
    ensures Scan(Normal, a + piece + b) == Scan(Normal, a + b)
  {
    assert a + piece + b == a + (piece + b);
    ScanConcat(Normal, a, piece + b);
    ScanConcat(Normal, piece, b);
    ScanConcat(Normal, a, b);
    LineEnds(b);
  }

  lemma LineEnds(b: string)
    requires b == "" || b[0] == '\n'
    ensures Scan(Line, b) == Scan(Normal, b)
  {
    if b != "" {
      ScanCons(Line, b);
      ScanCons(Normal, b);
    }
  }

  lemma LineComment(c: string)
    requires OneLine(c)
    ensures End(Normal, "//" + c) == Line && Emit(Normal, "//" + c) == ""
  {
    LineSilent(c);
    ScanSplit(Normal, "//", c);
    Two(Normal, '/', '/');
  }
}
