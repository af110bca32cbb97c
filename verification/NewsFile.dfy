/** db.c: the news database. Articles are written as a header line and a `~`-terminated block of lines, and read
    back through sfgets and the tokeniser. A file is the text it holds. */
module NewsFile {
  import opened Text
  import opened ParseArgs

  datatype Article = Article(importance: int, from: string, timestamp: int, header: string, content: string)

  // What a load builds; the header and the content may come back as NULL.
  datatype Loaded = Loaded(importance: int, from: string, timestamp: int,
                           header: Option<string>, content: Option<string>)

  // ---- lines of a text

  function Split(s: string): (parts: seq<string>)
    ensures |parts| > 0
  {
    if s == "" then [""]
    else
      var rest := Split(s[1..]);
      if s[0] == '\n' then [""] + rest else [[s[0]] + rest[0]] + rest[1..]
  }

  function Join(parts: seq<string>): string {
    if parts == [] then "" else if |parts| == 1 then parts[0] else parts[0] + "\n" + Join(parts[1..])
  }

  /** The content with its empty lines removed. */
  function Cleaned(content: string): string {
    Join(NonEmpty(Split(content)))
  }

  // The pieces dbWriteString gets from the tokeniser.
  function Lines(text: Option<string>): seq<string>
    decreases if text.Some? then 1 + |text.value| else 0
  {
    var p := NextArg(text, '\n');
    if p.arg.None? then [] else [p.arg.value] + Lines(p.rest)
  }

  lemma {:induction false} SplitToken(tok: string, rest: string)
    requires Without(tok, '\n')
    ensures Split(tok) == [tok]
    ensures Split(tok + "\n" + rest) == [tok] + Split(rest)
  {
    if tok == "" {
      assert ("\n" + rest)[1..] == rest;
      assert "" + "\n" + rest == "\n" + rest;
    } else {
      SplitToken(tok[1..], rest);
      assert (tok + "\n" + rest)[1..] == tok[1..] + "\n" + rest;
      assert [tok[0]] + tok[1..] == tok;
    }
  }

  lemma {:induction false} SplitSkip(s: string)
    ensures NonEmpty(Split(s)) == NonEmpty(Split(SkipAll(s, '\n')))
  {
    if s != "" && s[0] == '\n' {
      SplitSkip(s[1..]);
      assert Split(s)[1..] == Split(s[1..]);
    }
  }

  /** What the tokeniser hands to dbWriteString is the non-empty lines of the text. */
  lemma {:induction false} LinesAreNonEmptyLines(text: string)
    ensures Lines(Some(text)) == NonEmpty(Split(text))
    decreases |text|
  {
    var s := SkipAll(text, '\n');
    var n := TokenLength(s, '\n');
    SplitSkip(text);
    if s != "" {
      if n == |s| {
        assert s[..n] == s;
        SplitToken(s, "");
        assert Lines(None) == [];
      } else {
        assert s == s[..n] + "\n" + s[n + 1..];
        SplitToken(s[..n], s[n + 1..]);
        LinesAreNonEmptyLines(s[n + 1..]);
        assert NonEmpty([s[..n]] + Split(s[n + 1..])) == [s[..n]] + NonEmpty(Split(s[n + 1..]));
      }
    } else {
      assert NonEmpty([""]) == [];
    }
  }

  // ---- writing

  function WriteLines(lines: seq<string>): string {
    if lines == [] then "" else lines[0] + "~\n" + WriteLines(lines[1..])
  }

  // dbWriteString
  function WriteString(content: string): string {
    WriteLines(Lines(InitText(content))) + "~$\n"
  }

  function Words(words: seq<string>): string {
    if words == [] then "" else words[0] + " " + Words(words[1..])
  }

  function HeaderWords(a: Article): seq<string> {
    ["article", PrintInt(a.importance), a.from, PrintInt(a.timestamp)]
  }

  function ArticleLine(a: Article): string {
    Words(HeaderWords(a)) + a.header
  }

  function WriteArticle(a: Article): string {
    ArticleLine(a) + "\n" + WriteString(a.content)
  }

  // saveInfoData
  function SaveInfo(articles: seq<Article>): string {
    if articles == [] then "done\n" else WriteArticle(articles[0]) + SaveInfo(articles[1..])
  }

  // ---- reading

  // How many characters fgets takes, of at most max: up to and including the first newline.
  function Taken(file: string, max: nat): (n: nat)
    ensures n <= |file| && n <= max
    ensures file != "" && max > 0 ==> n > 0
  {
    if max == 0 || file == "" then 0
    else if file[0] == '\n' then 1
    else 1 + Taken(file[1..], max - 1)
  }

  datatype Line = Eof | Line(text: string, rest: string)

  // stuff.c's sfgets: the last character read is dropped, newline or not.
  function Sfgets(file: string, len: nat): (l: Line)
    requires len > 1
    ensures l.Line? ==> |l.rest| < |file|
  {
    if file == "" then Eof
    else
      var n := Taken(file, len - 1);
      Line(file[..n - 1], file[n..])
  }

  lemma {:induction false} TakenLine(text: string, rest: string, max: nat)
    requires Without(text, '\n') && |text| < max
    ensures Taken(text + "\n" + rest, max) == |text| + 1
  {
    if text == "" {
      assert "" + "\n" + rest == "\n" + rest;
    } else {
      TakenLine(text[1..], rest, max - 1);
      assert (text + "\n" + rest)[1..] == text[1..] + "\n" + rest;
    }
  }

  /** A line that fits the buffer with its newline is read whole. */
  lemma SfgetsLine(text: string, rest: string, len: nat)
    requires Without(text, '\n') && |text| + 2 <= len
    ensures Sfgets(text + "\n" + rest, len) == Line(text, rest)
  {
    TakenLine(text, rest, len - 1);
    assert (text + "\n" + rest)[..|text|] == text && (text + "\n" + rest)[|text| + 1..] == rest;
  }

  // strrchr(s, '~').
  function LastTilde(s: string): (y: int)
    ensures -1 <= y < |s| && (y >= 0 ==> s[y] == '~') && forall i :: y < i < |s| ==> s[i] != '~'
  {
    if s == "" then -1 else if s[|s| - 1] == '~' then |s| - 1 else LastTilde(s[..|s| - 1])
  }

  // Abort is the failed assertion that a line holds a '~'.
  datatype Block = Abort | Block(text: string, rest: string)

  // What a line with a '~' adds, and whether it is the last.
  function Piece(text: string, y: nat): (p: string)
    requires y < |text|
    ensures |p| <= |text|
  {
    if y == 0 then "" else text[..y] + "\n"
  }

  predicate EndsBlock(text: string, y: nat) {
    y + 1 < |text| && text[y + 1] == '$'
  }

  // The loop of dbReadString: the concatenation it builds, each piece with its newline.
  function ReadLines(file: string): (b: Block)
    ensures b.Block? ==> |b.rest| <= |file| && (Without(file, '\0') ==> Without(b.rest, '\0'))
    decreases |file|
  {
    var l := Sfgets(file, 124);
    if l.Eof? then Block("", file)
    else
      var y := LastTilde(l.text);
      if y < 0 then Abort
      else
        if EndsBlock(l.text, y) then Block(Piece(l.text, y), l.rest)
        else
          var more := ReadLines(l.rest);
          if more.Abort? then Abort else Block(Piece(l.text, y) + more.text, more.rest)
  }

  // The pointer dbReadString returns: NULL if nothing was appended, else the text less its last newline.
  function Contents(text: string): Option<string> {
    if text == "" then None else Some(text[..|text| - 1])
  }

  datatype Outcome = Shutdown | Done(articles: seq<Loaded>)

  // n calls of parse_getarg.
  datatype Args = Args(args: seq<Option<string>>, rest: Option<string>)

  function TakeArgs(text: Option<string>, n: nat): (a: Args)
    ensures |a.args| == n
    decreases n, text
  {
    if n == 0 then Args([], text)
    else
      var p := NextArg(text, ' ');
      var more := TakeArgs(p.rest, n - 1);
      Args([p.arg] + more.args, more.rest)
  }

  // One turn of readInfoData's loop. Bad covers the failed assertion, an end of file before "done", an unknown command
  // and the NULL arguments on which atoi or strcmp would fault.
  datatype Entry = Bad | Last | Entry(news: Loaded, rest: string)

  function ReadEntry(file: string): (e: Entry)
    ensures e.Entry? ==> |e.rest| < |file|
  {
    var l := Sfgets(file, 2048);
    if l.Eof? then Bad
    else
      var words := TakeArgs(InitText(l.text), 4);
      if words.args[0] == Some("done") then Last
      else if words.args[0] != Some("article") || words.args[3].None? then Bad
      else
        var block := ReadLines(l.rest);
        if block.Abort? then Bad else Entry(LoadedFrom(words, block.text), block.rest)
  }

  // readInfoData
  function ReadInfo(file: string): Outcome
    decreases |file|
  {
    match ReadEntry(file)
    case Bad => Shutdown
    case Last => Done([])
    case Entry(news, rest) =>
      Prefixed([news], ReadInfo(rest))
  }

  function Prefixed(articles: seq<Loaded>, o: Outcome): Outcome {
    if o.Shutdown? then Shutdown else Done(articles + o.articles)
  }

  lemma PrefixedTwice(articles: seq<Loaded>, more: seq<Loaded>, o: Outcome)
    ensures Prefixed(articles, Prefixed(more, o)) == Prefixed(articles + more, o)
  {
    if o.Done? {
      assert articles + (more + o.articles) == articles + more + o.articles;
    }
  }

  function LoadedFrom(words: Args, text: string): Loaded
    requires |words.args| == 4
  {
    Loaded(Atoi(words.args[1].GetOr("")), Truncated(words.args[2].GetOr("")), Atoi(words.args[3].GetOr("")),
           AllArgs(words.rest, ' ').arg, Contents(text))
  }

  // strncpyzt(news->from, ..., NICKLEN)
  function Truncated(s: string): string {
    if |s| < NICKLEN then s else s[..NICKLEN - 1]
  }

  // ---- the round trip

  // A block of lines that dbReadString can take whole.
  predicate Readable(lines: seq<string>) {
    forall i :: 0 <= i < |lines| ==> lines[i] != "" && Without(lines[i], '\n') && |lines[i]| <= 121
  }

  // Lines as dbWriteString gets them.
  predicate Printable(lines: seq<string>) {
    forall i :: 0 <= i < |lines| ==> lines[i] != "" && Without(lines[i], '\n')
  }

  function Terminated(lines: seq<string>): string {
    if lines == [] then "" else lines[0] + "\n" + Terminated(lines[1..])
  }

  lemma {:induction false} ContentsOfTerminated(lines: seq<string>)
    requires lines != []
    ensures Terminated(lines) == Join(lines) + "\n"
    ensures Contents(Terminated(lines)) == Some(Join(lines))
  {
    if |lines| > 1 {
      ContentsOfTerminated(lines[1..]);
    }
    assert (Join(lines) + "\n")[..|Join(lines)|] == Join(lines);
  }

  lemma LastTildeEnds(p: string)
    ensures LastTilde(p + "~") == |p|
  {
  }

  lemma {:induction false} ReadWrittenLines(lines: seq<string>, rest: string)
    requires Readable(lines)
    ensures ReadLines(WriteLines(lines) + "~$\n" + rest) == Block(Terminated(lines), rest)
  {
    if lines == [] {
      assert "" + "~$\n" + rest == "~$" + "\n" + rest;
      SfgetsLine("~$", rest, 124);
      assert LastTilde("~$") == 0 by { assert "~$"[..1] == "~"; }
    } else {
      var tail := WriteLines(lines[1..]) + "~$\n" + rest;
      assert WriteLines(lines) + "~$\n" + rest == (lines[0] + "~") + "\n" + tail;
      SfgetsLine(lines[0] + "~", tail, 124);
      LastTildeEnds(lines[0]);
      assert (lines[0] + "~")[..|lines[0]|] == lines[0];
      ReadWrittenLines(lines[1..], rest);
    }
  }

  lemma {:induction false} TakenLong(p: string, rest: string, max: nat)
    requires Without(p, '\n') && |p| >= max
    ensures Taken(p + rest, max) == max
  {
    if max > 0 {
      TakenLong(p[1..], rest, max - 1);
      assert (p + rest)[1..] == p[1..] + rest;
    }
  }

  lemma {:induction false} NoTilde(s: string)
    requires Without(s, '~')
    ensures LastTilde(s) == -1
  {
    if s != "" {
      NoTilde(s[..|s| - 1]);
    }
  }

  predicate TildeFree(lines: seq<string>) {
    forall i :: 0 <= i < |lines| ==> Without(lines[i], '~')
  }

  /** A tilde-free line of 122 characters or more makes the load abort, whatever stands around it. */
  lemma {:induction false} LongLineAborts(lines: seq<string>, rest: string)
    requires Printable(lines)
    requires TildeFree(lines) && !Readable(lines)
    ensures ReadLines(WriteLines(lines) + rest).Abort?
  {
    var p, tail := lines[0], WriteLines(lines[1..]) + rest;
    assert WriteLines(lines) + rest == (p + "~") + "\n" + tail;
    if |p| >= 122 {
      assert WriteLines(lines) + rest == (p + "~") + ("\n" + tail);
      TakenLong(p + "~", "\n" + tail, 123);
      assert ((p + "~") + ("\n" + tail))[..122] == p[..122];
      NoTilde(p[..122]);
    } else {
      SfgetsLine(p + "~", tail, 124);
      LastTildeEnds(p);
      assert forall i :: 0 <= i < |lines| - 1 ==> lines[1..][i] == lines[i + 1];
      LongLineAborts(lines[1..], rest);
    }
  }

  // The header line can be read back: one-word sender, trimmed header, all within the line buffer.
  predicate HeaderReadable(a: Article) {
    && a.from != "" && Without(a.from, ' ') && Without(a.from, '\n') && |a.from| < NICKLEN
    && Trimmed(a.header, ' ') && Without(a.header, '\n')
    && |ArticleLine(a)| <= 2046
  }

  /** What a load is expected to bring back of an article. */
  function Reloaded(a: Article): Loaded {
    Loaded(a.importance, a.from, a.timestamp, Some(a.header),
           if NonEmpty(Split(a.content)) == [] then None else Some(Cleaned(a.content)))
  }

  function ReloadedAll(articles: seq<Article>): seq<Loaded> {
    if articles == [] then [] else [Reloaded(articles[0])] + ReloadedAll(articles[1..])
  }

  function ContentLines(a: Article): seq<string> {
    NonEmpty(Split(a.content))
  }

  lemma LinesOfInit(content: string)
    ensures Lines(InitText(content)) == NonEmpty(Split(content))
  {
    if content != "" {
      LinesAreNonEmptyLines(content);
    } else {
      assert Lines(None) == [];
    }
  }

  lemma {:induction false} SplitPieces(s: string)
    ensures forall i :: 0 <= i < |Split(s)| ==> Without(Split(s)[i], '\n')
  {
    if s != "" {
      SplitPieces(s[1..]);
    }
  }

  lemma {:induction false} NonEmptyPieces(parts: seq<string>)
    requires forall i :: 0 <= i < |parts| ==> Without(parts[i], '\n')
    ensures Printable(NonEmpty(parts))
  {
    if parts != [] {
      NonEmptyPieces(parts[1..]);
    }
  }

  lemma ContentLinesShape(a: Article)
    ensures Printable(ContentLines(a))
  {
    SplitPieces(a.content);
    NonEmptyPieces(Split(a.content));
  }

  lemma PrintedInt(n: int)
    ensures PrintInt(n) != "" && Without(PrintInt(n), ' ') && Without(PrintInt(n), '\n') && Atoi(PrintInt(n)) == n
  {
    AtoiPrintInt(n);
  }

  predicate AreWords(words: seq<string>) {
    forall i :: 0 <= i < |words| ==> words[i] != "" && Without(words[i], ' ') && Without(words[i], '\n')
  }

  function Somes(words: seq<string>): seq<Option<string>> {
    seq(|words|, i requires 0 <= i < |words| => Some(words[i]))
  }

  lemma {:induction false} TakePrintedWords(words: seq<string>, tail: string)
    requires AreWords(words)
    ensures TakeArgs(Some(Words(words) + tail), |words|) == Args(Somes(words), Some(tail))
  {
    if words == [] {
      assert Words(words) + tail == tail;
    } else {
      assert Words(words) + tail == words[0] + [' '] + (Words(words[1..]) + tail);
      NextArgOfPrinted(words[0], ' ', Words(words[1..]) + tail);
      TakePrintedWords(words[1..], tail);
      assert Somes(words) == [Some(words[0])] + Somes(words[1..]);
    }
  }

  lemma {:induction false} WordsWithoutNewline(words: seq<string>)
    requires AreWords(words)
    ensures Without(Words(words), '\n')
  {
    if words != [] {
      WordsWithoutNewline(words[1..]);
    }
  }

  // The fields come back out of the header line.
  lemma HeaderFields(a: Article)
    requires HeaderReadable(a)
    ensures ArticleLine(a) != "" && Without(ArticleLine(a), '\n')
    ensures TakeArgs(InitText(ArticleLine(a)), 4) == Args(Somes(HeaderWords(a)), Some(a.header))
  {
    PrintedInt(a.importance);
    PrintedInt(a.timestamp);
    var words := HeaderWords(a);
    assert AreWords(words);
    TakePrintedWords(words, a.header);
    WordsWithoutNewline(words);
    assert words[0] == "article";
  }

  lemma HeaderLoads(a: Article, text: string)
    requires HeaderReadable(a)
    ensures LoadedFrom(Args(Somes(HeaderWords(a)), Some(a.header)), text)
         == Loaded(a.importance, a.from, a.timestamp, Some(a.header), Contents(text))
  {
    PrintedInt(a.importance);
    PrintedInt(a.timestamp);
    AllArgsUnchangedIff(a.header, ' ');
  }

  lemma ReadArticle(a: Article, rest: string)
    requires HeaderReadable(a)
    ensures ReadEntry(WriteArticle(a) + rest) ==
            match ReadLines(WriteString(a.content) + rest)
            case Abort => Bad
            case Block(text, rest) =>
              Entry(Loaded(a.importance, a.from, a.timestamp, Some(a.header), Contents(text)), rest)
  {
    var tail := WriteString(a.content) + rest;
    assert WriteArticle(a) + rest == ArticleLine(a) + "\n" + tail;
    HeaderFields(a);
    SfgetsLine(ArticleLine(a), tail, 2048);
    assert Somes(HeaderWords(a))[0] == Some("article") && Somes(HeaderWords(a))[3].Some?;
    var block := ReadLines(tail);
    if block.Block? {
      HeaderLoads(a, block.text);
    }
  }

  // One article at the head of a file.
  lemma ReadReadable(a: Article, rest: string)
    requires HeaderReadable(a) && Readable(ContentLines(a))
    ensures ReadInfo(WriteArticle(a) + rest) ==
            if ReadInfo(rest).Shutdown? then Shutdown else Done([Reloaded(a)] + ReadInfo(rest).articles)
  {
    var lines := ContentLines(a);
    LinesOfInit(a.content);
    ReadArticle(a, rest);
    ReadWrittenLines(lines, rest);
    if lines != [] {
      ContentsOfTerminated(lines);
    }
  }

  lemma UnreadableAborts(a: Article, rest: string)
    requires TildeFree(ContentLines(a)) && !Readable(ContentLines(a))
    ensures ReadLines(WriteString(a.content) + rest).Abort?
  {
    var lines := ContentLines(a);
    LinesOfInit(a.content);
    ContentLinesShape(a);
    Assoc(WriteLines(lines), "~$\n", rest);
    LongLineAborts(lines, "~$\n" + rest);
  }

  lemma ReadUnreadable(a: Article, rest: string)
    requires HeaderReadable(a) && TildeFree(ContentLines(a)) && !Readable(ContentLines(a))
    ensures ReadInfo(WriteArticle(a) + rest).Shutdown?
  {
    UnreadableAborts(a, rest);
    ReadArticle(a, rest);
  }

  lemma ReadDone()
    ensures ReadInfo("done\n") == Done([])
  {
    assert "done\n" == "done" + "\n" + "";
    SfgetsLine("done", "", 2048);
    NextArgOfPrinted("done", ' ', "");
    assert TakeArgs(InitText("done"), 4).args[0] == Some("done");
  }

  /** Saving and reloading brings back the whole list, in order, each content less its empty lines. */
  lemma {:induction false} NewsRoundTrip(articles: seq<Article>)
    requires forall a :: a in articles ==> HeaderReadable(a) && Readable(ContentLines(a))
    ensures ReadInfo(SaveInfo(articles)) == Done(ReloadedAll(articles))
  {
    if articles == [] {
      ReadDone();
    } else {
      ReadReadable(articles[0], SaveInfo(articles[1..]));
      NewsRoundTrip(articles[1..]);
    }
  }

  // One piece of a block is no longer than the line it was cut from.
  lemma ReadPiece(file: string, text: string, more: string)
    requires Sfgets(file, 124) == Line(text, more)
    ensures var b := ReadLines(file);
            b.Block? ==> |b.text| <= |text| || (ReadLines(more).Block? && |b.text| <= |text| + |ReadLines(more).text|)
  {
  }

  function BlockText(lines: seq<string>, rest: string): string {
    WriteLines(lines) + "~$\n" + rest
  }

  // What is read of the rest of a line and the block behind it is no longer than what was written, and shorter if this
  // line or one of the block is cut.
  lemma {:induction false} ReadNoLonger(l: string, lines: seq<string>, rest: string)
    requires Without(l, '\n') && Printable(lines)
    ensures var b := ReadLines(l + "\n" + BlockText(lines, rest));
            b.Block? ==> |b.text| <= |l| + |Terminated(lines)|
                         && (|l| >= 123 || !Readable(lines) ==> |b.text| < |l| + |Terminated(lines)|)
    decreases |lines|, |l|
  {
    var more := BlockText(lines, rest);
    if |l| >= 123 {
      CutLine(l, more);
      ReadPiece(l + "\n" + more, l[..122], l[123..] + "\n" + more);
      ReadNoLonger(l[123..], lines, rest);
    } else {
      SfgetsLine(l, more, 124);
      ReadPiece(l + "\n" + more, l, more);
      if lines == [] {
        ReadWrittenLines(lines, rest);
      } else {
        NextLine(lines, rest);
        ReadNoLonger(lines[0] + "~", lines[1..], rest);
      }
    }
  }

  // fgets takes 123 characters of a longer line, and sfgets drops the last of them.
  lemma CutLine(l: string, more: string)
    requires Without(l, '\n') && |l| >= 123
    ensures Sfgets(l + "\n" + more, 124) == Line(l[..122], l[123..] + "\n" + more)
  {
    var end := "\n" + more;
    assert l + "\n" + more == l + end && l[123..] + "\n" + more == l[123..] + end;
    TakenLong(l, end, 123);
    assert (l + end)[..122] == l[..122] && (l + end)[123..] == l[123..] + end;
  }

  lemma NextLineText(head: string, more: string, rest: string)
    ensures head + "~\n" + more + "~$\n" + rest == (head + "~") + "\n" + (more + "~$\n" + rest)
  {
    var nl := "~\n";
    assert head + nl == (head + "~") + "\n";
    Assoc(head + nl, more, "~$\n");
    Assoc(head + nl, more + "~$\n", rest);
  }

  lemma NextLine(lines: seq<string>, rest: string)
    requires Printable(lines) && lines != []
    ensures BlockText(lines, rest) == (lines[0] + "~") + "\n" + BlockText(lines[1..], rest)
    ensures |Terminated(lines)| == |lines[0] + "~"| + |Terminated(lines[1..])|
    ensures Printable(lines[1..]) && Without(lines[0] + "~", '\n')
    ensures Readable(lines) <==> |lines[0]| <= 121 && Readable(lines[1..])
  {
    NextLineText(lines[0], WriteLines(lines[1..]), rest);
    assert forall i :: 0 <= i < |lines| - 1 ==> lines[1..][i] == lines[i + 1];
  }

  /** A block with a line of 122 characters or more is never read back as it was written. */
  lemma UnreadableChanges(a: Article, rest: string)
    requires !Readable(ContentLines(a))
    ensures var b := ReadLines(WriteString(a.content) + rest);
            b.Block? ==> Contents(b.text) != Some(Cleaned(a.content)) && ContentLines(a) != []
  {
    var lines := ContentLines(a);
    LinesOfInit(a.content);
    ContentLinesShape(a);
    NextLine(lines, rest);
    ReadNoLonger(lines[0] + "~", lines[1..], rest);
    ContentsOfTerminated(lines);
  }

  lemma ReadChanged(a: Article, rest: string, expected: seq<Loaded>)
    requires HeaderReadable(a) && !Readable(ContentLines(a))
    ensures ReadInfo(WriteArticle(a) + rest) != Done([Reloaded(a)] + expected)
  {
    ReadArticle(a, rest);
    UnreadableChanges(a, rest);
    var b := ReadLines(WriteString(a.content) + rest);
    if b.Block? {
      var news := Loaded(a.importance, a.from, a.timestamp, Some(a.header), Contents(b.text));
      assert news != Reloaded(a);
      PrefixedOther(news, ReadInfo(b.rest), Reloaded(a), expected);
    }
  }

  lemma PrefixedOther(news: Loaded, o: Outcome, other: Loaded, expected: seq<Loaded>)
    requires news != other
    ensures Prefixed([news], o) != Done([other] + expected)
  {
    if o.Done? {
      assert ([news] + o.articles)[0] == news && ([other] + expected)[0] == other;
    }
  }

  // One article at the head of a file, whatever its content.
  lemma ReadFirst(a: Article, rest: string, expected: seq<Loaded>)
    requires HeaderReadable(a)
    ensures ReadInfo(WriteArticle(a) + rest) == Done([Reloaded(a)] + expected)
       <==> Readable(ContentLines(a)) && ReadInfo(rest) == Done(expected)
  {
    if Readable(ContentLines(a)) {
      ReadReadable(a, rest);
      if ReadInfo(rest).Done? {
        var read := ReadInfo(rest).articles;
        assert ([Reloaded(a)] + read)[1..] == read && ([Reloaded(a)] + expected)[1..] == expected;
      }
    } else {
      ReadChanged(a, rest, expected);
    }
  }

  /** For every content, the reload brings the list back exactly if every content line has at most 121 characters. */
  lemma {:induction false} NewsReloadIff(articles: seq<Article>)
    requires forall a :: a in articles ==> HeaderReadable(a)
    ensures ReadInfo(SaveInfo(articles)) == Done(ReloadedAll(articles)) <==>
            forall a :: a in articles ==> Readable(ContentLines(a))
  {
    if articles == [] {
      ReadDone();
    } else {
      var first, more := articles[0], articles[1..];
      ReadFirst(first, SaveInfo(more), ReloadedAll(more));
      NewsReloadIff(more);
      assert forall a :: a in articles <==> a == first || a in more;
    }
  }

  /** Where a line is longer and no content holds a '~', services shut down while loading. */
  lemma {:induction false} LongLineShutsDown(articles: seq<Article>)
    requires forall a :: a in articles ==> HeaderReadable(a) && TildeFree(ContentLines(a))
    requires exists a :: a in articles && !Readable(ContentLines(a))
    ensures ReadInfo(SaveInfo(articles)).Shutdown?
  {
    if Readable(ContentLines(articles[0])) {
      ReadReadable(articles[0], SaveInfo(articles[1..]));
      LongLineShutsDown(articles[1..]);
    } else {
      ReadUnreadable(articles[0], SaveInfo(articles[1..]));
    }
  }

  // ---- inputs that fail

  function OneLine(content: string): Article {
    Article(1, "nick", 0, "header", content)
  }

  lemma FourWords(a: string, b: string, c: string, d: string)
    ensures |Words([a, b, c, d])| == |a| + |b| + |c| + |d| + 4
  {
    assert [a, b, c, d][1..] == [b, c, d] && [b, c, d][1..] == [c, d] && [c, d][1..] == [d] && [d][1..] == [];
    assert Words([d]) == d + " " + Words([]) && Words([c, d]) == c + " " + Words([d]);
  }

  lemma OneLineIs(content: string)
    requires content != "" && Without(content, '\n')
    ensures ContentLines(OneLine(content)) == [content] && HeaderReadable(OneLine(content))
    ensures SaveInfo([OneLine(content)]) == WriteArticle(OneLine(content)) + "done\n"
  {
    SplitToken(content, "");
    assert NonEmpty([content]) == [content];
    FourWords("article", PrintInt(1), "nick", PrintInt(0));
    assert [OneLine(content)][1..] == [];
  }

  lemma ReadOne(a: Article, news: Loaded)
    requires ReadEntry(WriteArticle(a) + "done\n") == Entry(news, "done\n")
    ensures ReadInfo(SaveInfo([a])) == Done([news])
  {
    ReadDone();
    assert [a][1..] == [] && SaveInfo([a]) == WriteArticle(a) + SaveInfo([]);
    assert [news] + [] == [news];
  }

  /** One line of 122 characters stops services at the next start. */
  lemma LongLineExample(line: string)
    requires line == Repeat('x', 122)
    ensures ReadInfo(SaveInfo([OneLine(line)])).Shutdown?
  {
    var a := OneLine(line);
    OneLineIs(line);
    assert !Readable(ContentLines(a)) by { assert ContentLines(a)[0] == line; }
    LongLineShutsDown([a]);
  }

  lemma TildedPiece(head: string, line: string)
    requires |head| + 2 < |line| && line[..|head|] == head && line[|head|] == '~' && Without(line[|head| + 1..], '~')
    ensures var t := line[..|line| - 1];
            LastTilde(t) == |head| && t[..|head|] == head && t[|head| + 1] == line[|head| + 1]
  {
    var t := line[..|line| - 1];
    assert t[|head|] == '~';
    assert forall i :: |head| < i < |t| ==> t[i] == line[|head| + 1..][i - |head| - 1];
  }

  lemma PieceGoesOn(file: string, text: string, more: string)
    requires Sfgets(file, 124) == Line(text, more)
    requires LastTilde(text) >= 0 && !EndsBlock(text, LastTilde(text))
    ensures var y, b := LastTilde(text), ReadLines(more);
            ReadLines(file) == if b.Abort? then Abort else Block(Piece(text, y) + b.text, b.rest)
  {
  }

  // A line that is only "~" adds nothing.
  lemma LoneTilde(tilde: string, more: string)
    requires tilde == "~"
    ensures ReadLines(tilde + "\n" + more) == ReadLines(more)
  {
    SfgetsLine(tilde, more, 124);
    LastTildeEnds("");
    assert "" + "~" == "~";
    PieceGoesOn(tilde + "\n" + more, tilde, more);
    var b := ReadLines(more);
    assert b.Block? ==> "" + b.text == b.text;
  }

  // fgets takes such a line in two pieces; the first is read up to its '~'.
  lemma TildedFirst(head: string, line: string, end: string)
    requires 0 < |head| && |head| + 2 < |line| == 123 && Without(line, '\n')
    requires line[..|head|] == head && line[|head|] == '~'
    requires Without(line[|head| + 1..], '~') && line[|head| + 1] != '$'
    ensures var b := ReadLines(end);
            ReadLines(line + "~" + "\n" + end) == if b.Abort? then Abort else Block(head + "\n" + b.text, b.rest)
  {
    var l := line + "~";
    CutLine(l, end);
    assert l[123..] == "~" && l[..122] == line[..122];
    TildedPiece(head, line);
    PieceGoesOn(l + "\n" + end, l[..122], l[123..] + "\n" + end);
    LoneTilde(l[123..], end);
  }

  lemma TildedBlock(head: string, line: string, rest: string)
    requires 0 < |head| && |head| + 2 < |line| == 123 && Without(line, '\n')
    requires line[..|head|] == head && line[|head|] == '~'
    requires Without(line[|head| + 1..], '~') && line[|head| + 1] != '$'
    ensures ReadLines(BlockText([line], rest)) == Block(head + "\n", rest)
  {
    NextLine([line], rest);
    TildedFirst(head, line, BlockText([], rest));
    ReadWrittenLines([], rest);
    assert head + "\n" + "" == head + "\n";
  }

  /** A line of 123 characters with one '~' in it loads, but only up to that '~'. */
  lemma TildedLineLoads(a: Article, head: string, rest: string)
    requires HeaderReadable(a) && ContentLines(a) == [a.content] && |a.content| == 123 && Without(a.content, '\n')
    requires 0 < |head| < 121 && a.content[..|head|] == head && a.content[|head|] == '~'
    requires Without(a.content[|head| + 1..], '~') && a.content[|head| + 1] != '$'
    ensures ReadEntry(WriteArticle(a) + rest)
         == Entry(Loaded(a.importance, a.from, a.timestamp, Some(a.header), Some(head)), rest)
  {
    ReadArticle(a, rest);
    LinesOfInit(a.content);
    TildedBlock(head, a.content, rest);
    assert (head + "\n")[..|head|] == head;
  }

  lemma TildedLineExample(line: string)
    requires line == "xxxxx~" + Repeat('y', 117)
    ensures ReadInfo(SaveInfo([OneLine(line)])) == Done([Loaded(1, "nick", 0, Some("header"), Some("xxxxx"))])
  {
    OneLineIs(line);
    assert line[..5] == "xxxxx";
    TildedLineLoads(OneLine(line), line[..5], "done\n");
    ReadOne(OneLine(line), Loaded(1, "nick", 0, Some("header"), Some("xxxxx")));
  }

  // ---- the same, as db.c does it

  /** An open file: what is still to be read, or what has been written. */
  class File {
    var text: string

    constructor (text: string)
      ensures this.text == text
    {
      this.text := text;
    }

    method Print(s: string)
      modifies this
      ensures text == old(text) + s
    {
      text := text + s;
    }

    method Gets(len: nat) returns (line: Option<string>)
      requires len > 1
      modifies this
      ensures match Sfgets(old(text), len)
              case Eof => line == None && text == old(text)
              case Line(l, rest) => line == Some(l) && text == rest
    {
      if text == "" {
        return None;
      }
      var n := 0;
      while n < len - 1 && n < |text| && (n == 0 || text[n - 1] != '\n')
        invariant n <= |text| && n <= len - 1
        invariant n > 0 ==> Without(text[..n - 1], '\n')
      {
        n := n + 1;
      }
      TakenIs(text, len - 1, n);
      line := Some(text[..n - 1]);
      text := text[n..];
    }
  }

  lemma {:induction false} TakenIs(file: string, max: nat, n: nat)
    requires 0 < n <= |file| && n <= max && Without(file[..n - 1], '\n')
    requires n == max || n == |file| || file[n - 1] == '\n'
    ensures Taken(file, max) == n
  {
    if n > 1 {
      assert file[0] == file[..n - 1][0];
      assert file[1..][..n - 2] == file[..n - 1][1..];
      TakenIs(file[1..], max - 1, n - 1);
    } else if file[0] != '\n' {
      assert Taken(file[1..], max - 1) == 0;
    }
  }

  // The line in a buffer of its own, under a fresh parser.
  method ParserFor(line: string, delim: char) returns (state: ParseState)
    requires Without(line, '\0') && delim != '\0'
    ensures fresh(state) && fresh(state.buffer) && state.delim == delim
    ensures state.Valid() && state.Rest() == InitText(line)
  {
    var buffer := new char[|line| + 1](i => if 0 <= i < |line| then line[i] else '\0');
    assert buffer[..|line|] == line;
    state := new ParseState(buffer, line, delim);
  }

  method DbWriteString(fp: File, istr: string)
    requires Without(istr, '\0')
    modifies fp
    ensures fp.text == old(fp.text) + WriteString(istr)
  {
    var lineSplit := ParserFor(istr, '\n');
    var p := lineSplit.GetToken();
    PrintLines(fp, lineSplit, p);
    fp.Print("~$\n");
    Assoc(old(fp.text), WriteLines(Lines(InitText(istr))), "~$\n");
  }

  // The loop over the lines, from the token p on.
  method PrintLines(fp: File, lineSplit: ParseState, first: Option<string>)
    requires lineSplit.Valid() && lineSplit.delim == '\n'
    modifies fp, lineSplit`current, lineSplit.buffer
    ensures fp.text == old(fp.text + LinesText(first, lineSplit.Rest()))
  {
    var p := first;
    ghost var whole := fp.text + LinesText(p, lineSplit.Rest());
    while p.Some?
      invariant lineSplit.Valid() && lineSplit.delim == '\n'
      invariant whole == fp.text + LinesText(p, lineSplit.Rest())
      decreases p.Some?, if lineSplit.Rest().Some? then 1 + |lineSplit.Rest().value| else 0
    {
      LinesTextStep(fp.text, p.value, lineSplit.Rest());
      fp.Print(p.value + "~\n");
      p := lineSplit.GetToken();
    }
    assert fp.text + "" == fp.text;
  }

  // What dbWriteString has still to print, given the token it holds.
  ghost function LinesText(p: Option<string>, rest: Option<string>): string {
    WriteLines(if p.None? then [] else [p.value] + Lines(rest))
  }

  lemma LinesTextStep(before: string, p: string, rest: Option<string>)
    ensures var next := NextArg(rest, '\n');
            before + LinesText(Some(p), rest) == before + (p + "~\n") + LinesText(next.arg, next.rest)
  {
    var more := Lines(rest);
    assert ([p] + more)[1..] == more;
    Assoc(before, p + "~\n", WriteLines(more));
  }

  /** dbReadString; `ok` is false where its assertion fails. */
  method DbReadString(fp: File) returns (ok: bool, p: Option<string>)
    modifies fp
    ensures match ReadLines(old(fp.text))
            case Abort => !ok
            case Block(text, rest) => ok && p == Contents(text) && fp.text == rest
  {
    var acc := "";
    var fin := false;
    var whole := ReadLines(fp.text);
    while !fin
      invariant !fin ==> match ReadLines(fp.text)
                         case Abort => whole.Abort?
                         case Block(text, rest) => whole == Block(acc + text, rest)
      invariant fin ==> whole == Block(acc, fp.text)
      decreases !fin, |fp.text|
    {
      var tempLine := fp.Gets(124);
      if tempLine.None? {
        assert acc + "" == acc;
        break;
      }
      var y := LastTilde(tempLine.value);
      if y < 0 {
        return false, None;
      }
      var piece := if y == 0 then "" else tempLine.value[..y] + "\n";
      if ReadLines(fp.text).Block? {
        Assoc(acc, piece, ReadLines(fp.text).text);
      }
      acc := acc + piece;
      fin := y + 1 < |tempLine.value| && tempLine.value[y + 1] == '$';
    }
    return true, Contents(acc);
  }

  method SaveArticle(fp: File, news: Article)
    requires Without(news.content, '\0')
    modifies fp
    ensures fp.text == old(fp.text) + WriteArticle(news)
  {
    fp.Print(ArticleLine(news) + "\n");
    DbWriteString(fp, news.content);
  }

  method SaveInfoData(articles: seq<Article>) returns (fp: File)
    requires forall a :: a in articles ==> Without(a.content, '\0')
    ensures fresh(fp) && fp.text == SaveInfo(articles)
  {
    fp := new File("");
    for i := 0 to |articles|
      invariant fresh(fp) && fp.text + SaveInfo(articles[i..]) == SaveInfo(articles)
    {
      SaveInfoFrom(fp.text, articles, i);
      SaveArticle(fp, articles[i]);
    }
    fp.Print("done\n");
  }

  lemma SaveInfoFrom(before: string, articles: seq<Article>, i: nat)
    requires i < |articles|
    ensures before + SaveInfo(articles[i..]) == before + WriteArticle(articles[i]) + SaveInfo(articles[i + 1..])
  {
    assert articles[i..][1..] == articles[i + 1..];
  }

  /** InfoServ's list of articles and the time of its newest one. */
  class InfoServ {
    var articles: seq<Loaded>
    var lastPost: int

    /** readInfoData; `ok` is false where services shut down. */
    method ReadInfoData(fp: File) returns (ok: bool)
      requires Without(fp.text, '\0')
      modifies this, fp
      ensures ok <==> ReadInfo(old(fp.text)).Done?
      ensures ok ==> articles == ReadInfo(old(fp.text)).articles
      ensures ok ==> lastPost == Newest(old(lastPost), articles)
    {
      articles := [];
      ghost var whole := ReadInfo(fp.text);
      while true
        invariant Without(fp.text, '\0')
        invariant lastPost == Newest(old(lastPost), articles)
        invariant whole == Prefixed(articles, ReadInfo(fp.text))
        decreases |fp.text|
      {
        var entry := ReadArticleFrom(fp);
        if entry.Bad? {
          return false;
        }
        if entry.Last? {
          break;
        }
        NewestSnoc(old(lastPost), articles, entry.news);
        PrefixedTwice(articles, [entry.news], ReadInfo(fp.text));
        articles := articles + [entry.news];
        if entry.news.timestamp > lastPost {
          lastPost := entry.news.timestamp;
        }
      }
      assert articles + [] == articles;
      return true;
    }
  }

  // One turn of readInfoData's loop, up to the list it appends to.
  method ReadArticleFrom(fp: File) returns (entry: Entry)
    requires Without(fp.text, '\0')
    modifies fp
    ensures entry == ReadEntry(old(fp.text))
    ensures entry.Entry? ==> fp.text == entry.rest && Without(fp.text, '\0')
  {
    var dbLine := fp.Gets(2048);
    if dbLine.None? {
      return Bad;
    }
    var words, header := ParseHeader(dbLine.value);
    if words[0] == Some("done") {
      return Last;
    }
    if words[0] != Some("article") || words[3].None? {
      return Bad;
    }
    var read, content := DbReadString(fp);
    if !read {
      return Bad;
    }
    entry := Entry(Loaded(Atoi(words[1].GetOr("")), Truncated(words[2].GetOr("")), Atoi(words[3].value),
                          header, content),
                   fp.text);
  }

  // n calls of parse_getarg on a line.
  method TakeTokens(state: ParseState, n: nat) returns (words: seq<Option<string>>)
    requires state.Valid() && state.delim == ' '
    modifies state`current, state.buffer
    ensures state.Valid() && Args(words, state.Rest()) == TakeArgs(old(state.Rest()), n)
  {
    words := [];
    ghost var all := TakeArgs(state.Rest(), n);
    for i := 0 to n
      invariant state.Valid()
      invariant |words| == i && all == After(words, TakeArgs(state.Rest(), n - i))
    {
      TakeOneMore(words, state.Rest(), n - i);
      var word := state.GetToken();
      words := words + [word];
    }
  }

  // The parser's calls on an article line; on another line the last four go unused.
  method ParseHeader(line: string) returns (words: seq<Option<string>>, header: Option<string>)
    requires Without(line, '\0')
    ensures var w := TakeArgs(InitText(line), 4);
            words == w.args && header == AllArgs(w.rest, ' ').arg
  {
    var state := ParserFor(line, ' ');
    words := TakeTokens(state, 4);
    header := state.GetAllText();
  }

  ghost function After(words: seq<Option<string>>, more: Args): Args {
    Args(words + more.args, more.rest)
  }

  lemma TakeOneMore(words: seq<Option<string>>, text: Option<string>, n: nat)
    requires n > 0
    ensures var p := NextArg(text, ' ');
            After(words, TakeArgs(text, n)) == After(words + [p.arg], TakeArgs(p.rest, n - 1))
  {
    var p := NextArg(text, ' ');
    var more := TakeArgs(p.rest, n - 1).args;
    assert words + ([p.arg] + more) == words + [p.arg] + more;
  }

  function Newest(t: int, articles: seq<Loaded>): int
    decreases |articles|
  {
    if articles == [] then t
    else
      var n := articles[0].timestamp;
      Newest(if n > t then n else t, articles[1..])
  }

  lemma {:induction false} NewestSnoc(t: int, articles: seq<Loaded>, news: Loaded)
    decreases |articles|
    ensures var n := Newest(t, articles);
            Newest(t, articles + [news]) == if news.timestamp > n then news.timestamp else n
  {
    if articles == [] {
      assert [news][1..] == [];
    } else {
      assert (articles + [news])[1..] == articles[1..] + [news];
      var n := articles[0].timestamp;
      NewestSnoc(if n > t then n else t, articles[1..], news);
    }
  }
}
