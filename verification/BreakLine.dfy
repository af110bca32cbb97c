/** server.c: breakLine puts IRC lines together from the pieces recv() returns, and parseLine cuts a line into words.
    A chunk is the C string handed to breakLine, so it holds no NUL. */
module BreakLine {
  import opened Text
  import ParseArgs

  const MAX_IRC_LINE_LEN := 512

  predicate IsEnd(c: char) {
    c == '\r' || c == '\n'
  }

  // ---- the reference: a stream split at runs of CR and LF

  function LineLength(s: string): (n: nat)
    ensures n <= |s|
  {
    if s == "" || IsEnd(s[0]) then 0 else 1 + LineLength(s[1..])
  }

  function LinesOf(stream: string): (lines: seq<string>)
    decreases |stream|
  {
    var n := LineLength(stream);
    if n == |stream| then [] else (if n == 0 then [] else [stream[..n]]) + LinesOf(stream[n + 1..])
  }

  // What follows the last CR or LF.
  function TailOf(stream: string): (tail: string)
    ensures |tail| <= |stream|
    decreases |stream|
  {
    var n := LineLength(stream);
    if n == |stream| then stream else TailOf(stream[n + 1..])
  }

  predicate Fits(stream: string)
    decreases |stream|
  {
    var n := LineLength(stream);
    n < MAX_IRC_LINE_LEN && (n < |stream| ==> Fits(stream[n + 1..]))
  }

  // ---- breakLine as a function

  datatype Outcome = Outcome(parsed: seq<string>, oldData: string)

  function AfterEnds(s: string): (t: string)
    ensures |t| <= |s|
  {
    if s != "" && IsEnd(s[0]) then AfterEnds(s[1..]) else s
  }

  // One turn of the outer loop: the line in sendBuffer, whether a terminator ended it, and the data left.
  datatype Turn = Turn(line: string, terminated: bool, rest: string)

  function NextTurn(chunk: string, used: string): (t: Turn)
    requires |used| <= MAX_IRC_LINE_LEN
    ensures |t.rest| <= |chunk| && (|used| < MAX_IRC_LINE_LEN && chunk != "" ==> |t.rest| < |chunk|)
  {
    if chunk != "" && !IsEnd(chunk[0]) && |used| < MAX_IRC_LINE_LEN then NextTurn(chunk[1..], used + [chunk[0]])
    else Turn(used, chunk != "" && IsEnd(chunk[0]), AfterEnds(chunk))
  }

  // strncpyzt(oldData, line, MAX_IRC_LINE_LEN)
  function Kept(line: string): (k: string)
    ensures |k| < MAX_IRC_LINE_LEN
  {
    if |line| < MAX_IRC_LINE_LEN then line else line[..MAX_IRC_LINE_LEN - 1]
  }

  // The outer loop: `used` is what sendBuffer holds, `oldData` what the last unfinished line left.
  function Scan(chunk: string, used: string, oldData: string): (o: Outcome)
    requires |used| < MAX_IRC_LINE_LEN
    decreases |chunk|
  {
    if chunk == "" then Outcome([], oldData)
    else
      var t := NextTurn(chunk, used);
      if !t.terminated then Scan(t.rest, "", Kept(t.line))
      else
        var more := Scan(t.rest, "", oldData);
        Outcome([t.line] + more.parsed, more.oldData)
  }

  // A call of breakLine.
  function BreakChunk(oldData: string, chunk: string): Outcome
    requires |oldData| < MAX_IRC_LINE_LEN
  {
    Scan(chunk, oldData, "")
  }

  lemma {:induction false} ScanKeepsBound(chunk: string, used: string, oldData: string)
    requires |used| < MAX_IRC_LINE_LEN && |oldData| < MAX_IRC_LINE_LEN
    ensures |Scan(chunk, used, oldData).oldData| < MAX_IRC_LINE_LEN
    decreases |chunk|
  {
    if chunk != "" {
      var t := NextTurn(chunk, used);
      ScanKeepsBound(t.rest, "", if t.terminated then oldData else Kept(t.line));
    }
  }

  function Run(oldData: string, chunks: seq<string>): Outcome
    requires |oldData| < MAX_IRC_LINE_LEN
    decreases |chunks|
  {
    if chunks == [] then Outcome([], oldData)
    else
      var o := BreakChunk(oldData, chunks[0]);
      ScanKeepsBound(chunks[0], oldData, "");
      var more := Run(o.oldData, chunks[1..]);
      Outcome(o.parsed + more.parsed, more.oldData)
  }

  function Flat(chunks: seq<string>): string {
    if chunks == [] then "" else chunks[0] + Flat(chunks[1..])
  }

  // ---- one call

  lemma {:induction false} LineLengthPrefix(a: string, b: string)
    requires LineLength(a) < |a|
    ensures LineLength(a + b) == LineLength(a)
  {
    assert (a + b)[0] == a[0] && (a + b)[1..] == a[1..] + b;
    if !IsEnd(a[0]) {
      LineLengthPrefix(a[1..], b);
    }
  }

  lemma {:induction false} LineLengthAppend(a: string, b: string)
    requires LineLength(a) == |a|
    ensures LineLength(a + b) == |a| + LineLength(b)
  {
    if a != "" {
      assert (a + b)[1..] == a[1..] + b;
      LineLengthAppend(a[1..], b);
    } else {
      assert a + b == b;
    }
  }

  lemma {:induction false} LineEnd(s: string)
    requires LineLength(s) < |s|
    ensures IsEnd(s[LineLength(s)])
  {
    if !IsEnd(s[0]) {
      LineEnd(s[1..]);
    }
  }

  // Leading CRs and LFs add no line.
  lemma {:induction false} SkipEnds(s: string)
    ensures var t := AfterEnds(s);
            LinesOf(s) == LinesOf(t) && TailOf(s) == TailOf(t) && (Fits(s) <==> Fits(t)) && (t == "" || !IsEnd(t[0]))
  {
    if s != "" && IsEnd(s[0]) {
      SkipEnds(s[1..]);
    }
  }

  lemma {:induction false} NonEmptyLines(stream: string)
    ensures NonEmpty(LinesOf(stream)) == LinesOf(stream)
    decreases |stream|
  {
    var n := LineLength(stream);
    if n < |stream| {
      NonEmptyLines(stream[n + 1..]);
      assert NonEmpty([stream[..n]]) == (if n == 0 then [] else [stream[..n]]);
      NonEmptyAppend(NonEmpty([stream[..n]]), LinesOf(stream[n + 1..]));
    }
  }

  // The calls of parseLine: the lines, after an empty one if the data starts with a terminator.
  function Deliveries(data: string): seq<string> {
    (if data != "" && IsEnd(data[0]) then [""] else []) + LinesOf(data)
  }

  // The data up to its first terminator, and what follows.
  lemma HeadLine(used: string, chunk: string, n: nat)
    requires LineLength(used) == |used| && n == LineLength(chunk) < |chunk|
    ensures LinesOf(used + chunk) == NonEmpty([used + chunk[..n]]) + LinesOf(chunk[n + 1..])
    ensures TailOf(used + chunk) == TailOf(chunk[n + 1..])
    ensures Fits(used + chunk) ==> |used| + n < MAX_IRC_LINE_LEN && Fits(chunk[n + 1..])
  {
    LineLengthAppend(used, chunk);
    assert (used + chunk)[..|used| + n] == used + chunk[..n];
    assert (used + chunk)[|used| + n + 1..] == chunk[n + 1..];
    assert NonEmpty([used + chunk[..n]]) == (if |used| + n == 0 then [] else [used + chunk[..n]]);
  }

  // One finished line at the head of the data: n characters of the chunk, then all terminators.
  lemma LineFinished(used: string, chunk: string, n: nat)
    requires LineLength(used) == |used| && n == LineLength(chunk) < |chunk|
    ensures var rest := AfterEnds(chunk[n..]);
            && (rest == "" || !IsEnd(rest[0]))
            && LinesOf(used + chunk) == NonEmpty([used + chunk[..n]]) + LinesOf(rest)
            && TailOf(used + chunk) == TailOf(rest)
            && (Fits(used + chunk) ==> |used| + n < MAX_IRC_LINE_LEN && Fits(rest))
  {
    LineEnd(chunk);
    HeadLine(used, chunk, n);
    assert chunk[n..][0] == chunk[n] && chunk[n..][1..] == chunk[n + 1..];
    SkipEnds(chunk[n + 1..]);
  }

  // A line that fits the buffer is copied whole.
  lemma {:induction false} TurnFits(used: string, chunk: string)
    requires |used| + LineLength(chunk) <= MAX_IRC_LINE_LEN
    ensures var n := LineLength(chunk);
            NextTurn(chunk, used) == Turn(used + chunk[..n], n < |chunk|, AfterEnds(chunk[n..]))
    decreases |chunk|
  {
    var n := LineLength(chunk);
    if n > 0 {
      TurnFits(used + [chunk[0]], chunk[1..]);
      assert used + [chunk[0]] + chunk[1..][..n - 1] == used + chunk[..n];
      assert chunk[1..][n - 1..] == chunk[n..];
    } else {
      assert used + chunk[..0] == used && chunk[0..] == chunk;
    }
  }

  lemma {:induction false} BreakFits(used: string, chunk: string, oldData: string)
    requires chunk != "" && Fits(used + chunk) && |used| < MAX_IRC_LINE_LEN && LineLength(used) == |used|
    ensures Scan(chunk, used, oldData).parsed == Deliveries(used + chunk)
    ensures Scan(chunk, used, oldData).oldData == if TailOf(used + chunk) != "" then TailOf(used + chunk) else oldData
    decreases |chunk|
  {
    var n := LineLength(chunk);
    if n == |chunk| {
      LastPiece(used, chunk, oldData);
    } else {
      var rest := AfterEnds(chunk[n..]);
      LineFinished(used, chunk, n);
      TurnFits(used, chunk);
      if rest == "" {
        assert LinesOf(rest) == [];
      } else {
        assert "" + rest == rest;
        BreakFits("", rest, oldData);
        assert Deliveries(rest) == LinesOf(rest);
      }
      FirstDelivery(used, chunk, LinesOf(rest));
    }
  }

  lemma FirstDelivery(used: string, chunk: string, more: seq<string>)
    requires LineLength(used) == |used| && LineLength(chunk) < |chunk|
    requires LinesOf(used + chunk) == NonEmpty([used + chunk[..LineLength(chunk)]]) + more
    ensures Deliveries(used + chunk) == [used + chunk[..LineLength(chunk)]] + more
  {
    LineLengthAppend(used, chunk);
    var line := used + chunk[..LineLength(chunk)];
    assert NonEmpty([line]) == (if line == "" then [] else [line]);
    assert [] + more == more;
  }

  lemma NoEndFirst(s: string)
    requires LineLength(s) == |s|
    ensures Deliveries(s) == []
  {
  }

  lemma LastPiece(used: string, chunk: string, oldData: string)
    requires chunk != "" && Fits(used + chunk) && LineLength(used) == |used| && LineLength(chunk) == |chunk|
    requires |used| < MAX_IRC_LINE_LEN
    ensures Scan(chunk, used, oldData) == Outcome([], used + chunk)
    ensures Deliveries(used + chunk) == [] && TailOf(used + chunk) == used + chunk
  {
    LineLengthAppend(used, chunk);
    NoEndFirst(used + chunk);
    TurnFits(used, chunk);
    assert chunk[..|chunk|] == chunk && chunk[|chunk|..] == "";
    assert Scan("", "", used + chunk) == Outcome([], used + chunk);
  }

  // ---- the stream

  // The first line of a is the first line of a + b.
  lemma PrefixLine(a: string, b: string, n: nat)
    requires n == LineLength(a) < |a|
    ensures LinesOf(a + b) == (if n == 0 then [] else [a[..n]]) + LinesOf(a[n + 1..] + b)
    ensures TailOf(a + b) == TailOf(a[n + 1..] + b)
    ensures Fits(a + b) <==> n < MAX_IRC_LINE_LEN && Fits(a[n + 1..] + b)
  {
    LineLengthPrefix(a, b);
    assert (a + b)[..n] == a[..n] && (a + b)[n + 1..] == a[n + 1..] + b;
  }

  /** Splitting may be stopped anywhere and resumed with the tail. */
  lemma {:induction false} Resume(a: string, b: string)
    ensures LinesOf(a + b) == LinesOf(a) + LinesOf(TailOf(a) + b)
    ensures TailOf(a + b) == TailOf(TailOf(a) + b)
    ensures Fits(a + b) ==> Fits(TailOf(a) + b) && |TailOf(a)| < MAX_IRC_LINE_LEN
    ensures LineLength(TailOf(a)) == |TailOf(a)|
    decreases |a|
  {
    var n := LineLength(a);
    if n < |a| {
      PrefixLine(a, b, n);
      Resume(a[n + 1..], b);
      Assoc(if n == 0 then [] else [a[..n]], LinesOf(a[n + 1..]), LinesOf(TailOf(a) + b));
    } else {
      LineLengthAppend(a, b);
    }
  }

  lemma NonEmptyDeliveries(data: string)
    ensures NonEmpty(Deliveries(data)) == LinesOf(data)
  {
    NonEmptyLines(data);
    if data != "" && IsEnd(data[0]) {
      NonEmptyAppend([""], LinesOf(data));
    } else {
      assert [] + LinesOf(data) == LinesOf(data);
    }
  }

  // An empty chunk arrives while `carried` followed by earlier chunks leaves a tail.
  predicate Drops(carried: string, chunks: seq<string>)
    decreases |chunks|
  {
    chunks != [] && ((chunks[0] == "" && carried != "") || Drops(TailOf(carried + chunks[0]), chunks[1..]))
  }

  /** The bytes that reach parseLine, in order, together with oldData. */
  lemma {:induction false} RunKeepsStream(carried: string, chunks: seq<string>)
    requires |carried| < MAX_IRC_LINE_LEN && LineLength(carried) == |carried|
    requires Fits(carried + Flat(chunks)) && !Drops(carried, chunks)
    ensures var o := Run(carried, chunks);
            NonEmpty(o.parsed) == LinesOf(carried + Flat(chunks)) && o.oldData == TailOf(carried + Flat(chunks))
    decreases |chunks|
  {
    if chunks == [] {
      assert carried + "" == carried;
    } else {
      var c, rest := chunks[0], Flat(chunks[1..]);
      var tail := TailOf(carried + c);
      assert carried + Flat(chunks) == carried + c + rest;
      Resume(carried + c, rest);
      Resume(carried, c);
      FitsPrefix(carried + c, rest);
      if c == "" {
        assert carried == "" && tail == "" && BreakChunk(carried, c) == Outcome([], "");
        RunKeepsStream("", chunks[1..]);
        assert [] + Run("", chunks[1..]).parsed == Run("", chunks[1..]).parsed;
      } else {
        BreakFits(carried, c, "");
        RunKeepsStream(tail, chunks[1..]);
        NonEmptyDeliveries(carried + c);
        NonEmptyAppend(Deliveries(carried + c), Run(tail, chunks[1..]).parsed);
      }
    }
  }

  lemma {:induction false} FitsPrefix(a: string, b: string)
    requires Fits(a + b)
    ensures Fits(a)
    decreases |a|
  {
    var n := LineLength(a);
    if n < |a| {
      LineLengthPrefix(a, b);
      assert (a + b)[n + 1..] == a[n + 1..] + b;
      FitsPrefix(a[n + 1..], b);
    } else {
      LineLengthAppend(a, b);
    }
  }

  // ---- what an empty chunk costs

  function Weight(lines: seq<string>): nat {
    if lines == [] then 0 else |lines[0]| + Weight(lines[1..])
  }

  // How many characters are no terminators.
  function Solid(s: string): nat {
    if s == "" then 0 else (if IsEnd(s[0]) then 0 else 1) + Solid(s[1..])
  }

  lemma {:induction false} WeightAppend(a: seq<string>, b: seq<string>)
    ensures Weight(a + b) == Weight(a) + Weight(b)
  {
    if a == [] {
      assert a + b == b;
    } else {
      assert (a + b)[0] == a[0] && (a + b)[1..] == a[1..] + b;
      WeightAppend(a[1..], b);
    }
  }

  lemma {:induction false} SolidAppend(a: string, b: string)
    ensures Solid(a + b) == Solid(a) + Solid(b)
  {
    if a == "" {
      assert a + b == b;
    } else {
      assert (a + b)[0] == a[0] && (a + b)[1..] == a[1..] + b;
      SolidAppend(a[1..], b);
    }
  }

  lemma {:induction false} SolidLine(s: string)
    ensures Solid(s[..LineLength(s)]) == LineLength(s)
    ensures LineLength(s) < |s| ==> Solid(s) == LineLength(s) + Solid(s[LineLength(s) + 1..])
  {
    if s != "" && !IsEnd(s[0]) {
      SolidLine(s[1..]);
      assert s[..LineLength(s)][1..] == s[1..][..LineLength(s[1..])];
    }
  }

  lemma {:induction false} WeightNonEmpty(lines: seq<string>)
    ensures Weight(NonEmpty(lines)) == Weight(lines)
  {
    if lines != [] {
      WeightNonEmpty(lines[1..]);
      WeightAppend(if lines[0] == "" then [] else [lines[0]], NonEmpty(lines[1..]));
    }
  }

  // No character of a line is lost or made up by the reference.
  lemma {:induction false} SplitConserves(s: string)
    ensures Weight(LinesOf(s)) + |TailOf(s)| == Solid(s)
    decreases |s|
  {
    var n := LineLength(s);
    SolidLine(s);
    if n < |s| {
      SplitConserves(s[n + 1..]);
      WeightAppend(if n == 0 then [] else [s[..n]], LinesOf(s[n + 1..]));
    } else {
      assert s[..n] == s;
    }
  }

  lemma {:induction false} SolidEnds(s: string)
    ensures Solid(s) == Solid(AfterEnds(s))
  {
    if s != "" && IsEnd(s[0]) {
      SolidEnds(s[1..]);
    }
  }

  lemma {:induction false} TurnWeight(chunk: string, used: string)
    requires |used| <= MAX_IRC_LINE_LEN
    ensures var t := NextTurn(chunk, used); |t.line| + Solid(t.rest) == |used| + Solid(chunk)
    decreases |chunk|
  {
    if chunk != "" && !IsEnd(chunk[0]) && |used| < MAX_IRC_LINE_LEN {
      TurnWeight(chunk[1..], used + [chunk[0]]);
    } else {
      SolidEnds(chunk);
    }
  }

  // Whatever the chunk, no more characters come out than went in.
  lemma {:induction false} ScanWeight(chunk: string, used: string, oldData: string)
    requires |used| < MAX_IRC_LINE_LEN
    ensures var o := Scan(chunk, used, oldData);
            Weight(o.parsed) + |o.oldData| <= |used| + Solid(chunk) + |oldData|
    decreases |chunk|
  {
    if chunk != "" {
      var t := NextTurn(chunk, used);
      TurnWeight(chunk, used);
      if t.terminated {
        ScanWeight(t.rest, "", oldData);
        WeightAppend([t.line], Scan(t.rest, "", oldData).parsed);
      } else {
        ScanWeight(t.rest, "", Kept(t.line));
      }
    }
  }

  lemma {:induction false} RunWeight(carried: string, chunks: seq<string>)
    requires |carried| < MAX_IRC_LINE_LEN
    ensures var o := Run(carried, chunks);
            Weight(o.parsed) + |o.oldData| <= |carried| + Solid(Flat(chunks))
    decreases |chunks|
  {
    if chunks != [] {
      var o := BreakChunk(carried, chunks[0]);
      ScanKeepsBound(chunks[0], carried, "");
      ScanWeight(chunks[0], carried, "");
      RunWeight(o.oldData, chunks[1..]);
      WeightAppend(o.parsed, Run(o.oldData, chunks[1..]).parsed);
      SolidAppend(chunks[0], Flat(chunks[1..]));
    }
  }

  // What the first chunk and the others weigh.
  lemma RunStep(carried: string, chunks: seq<string>)
    requires |carried| < MAX_IRC_LINE_LEN && chunks != []
    ensures var o, r := BreakChunk(carried, chunks[0]), Run(carried, chunks);
            && |o.oldData| < MAX_IRC_LINE_LEN && r.oldData == Run(o.oldData, chunks[1..]).oldData
            && Weight(r.parsed) == Weight(o.parsed) + Weight(Run(o.oldData, chunks[1..]).parsed)
            && Solid(Flat(chunks)) == Solid(chunks[0]) + Solid(Flat(chunks[1..]))
  {
    var o := BreakChunk(carried, chunks[0]);
    ScanKeepsBound(chunks[0], carried, "");
    WeightAppend(o.parsed, Run(o.oldData, chunks[1..]).parsed);
    SolidAppend(chunks[0], Flat(chunks[1..]));
  }

  // A chunk with text in it loses nothing.
  lemma ChunkWeight(carried: string, c: string, rest: string)
    requires |carried| < MAX_IRC_LINE_LEN && LineLength(carried) == |carried|
    requires c != "" && Fits(carried + (c + rest))
    ensures var o, tail := BreakChunk(carried, c), TailOf(carried + c);
            && o.oldData == tail && Weight(o.parsed) + |tail| == |carried| + Solid(c)
            && |tail| < MAX_IRC_LINE_LEN && LineLength(tail) == |tail| && Fits(tail + rest)
  {
    assert carried + (c + rest) == carried + c + rest;
    Resume(carried + c, rest);
    FitsPrefix(carried + c, rest);
    BreakFits(carried, c, "");
    DeliveriesWeight(carried, c);
  }

  lemma {:induction false} DropLoses(carried: string, chunks: seq<string>)
    requires |carried| < MAX_IRC_LINE_LEN && LineLength(carried) == |carried|
    requires Fits(carried + Flat(chunks)) && Drops(carried, chunks)
    ensures var o := Run(carried, chunks);
            Weight(o.parsed) + |o.oldData| < |carried| + Solid(Flat(chunks))
    decreases |chunks|
  {
    var c, rest := chunks[0], Flat(chunks[1..]);
    RunStep(carried, chunks);
    if c != "" {
      ChunkWeight(carried, c, rest);
      DropLoses(TailOf(carried + c), chunks[1..]);
    } else if carried != "" {
      RunWeight("", chunks[1..]);
    } else {
      assert "" + ("" + rest) == "" + rest;
      DropLoses("", chunks[1..]);
    }
  }

  lemma DeliveriesWeight(carried: string, c: string)
    requires LineLength(carried) == |carried|
    ensures Weight(Deliveries(carried + c)) + |TailOf(carried + c)| == |carried| + Solid(c)
  {
    var data := carried + c;
    SplitConserves(data);
    NonEmptyDeliveries(data);
    WeightNonEmpty(Deliveries(data));
    SolidAppend(carried, c);
    SolidLine(carried);
    assert carried[..|carried|] == carried;
  }

  /** For lines of at most 511 characters, whatever the split: the non-empty lines handed to parseLine followed by
      oldData are the stream split at CR/LF runs, exactly if no empty chunk arrives while data is carried. */
  lemma StreamRefinement(chunks: seq<string>)
    requires Fits(Flat(chunks))
    ensures var o := Run("", chunks);
            (NonEmpty(o.parsed) == LinesOf(Flat(chunks)) && o.oldData == TailOf(Flat(chunks)))
            <==> !Drops("", chunks)
  {
    assert "" + Flat(chunks) == Flat(chunks);
    var o := Run("", chunks);
    if Drops("", chunks) {
      DropLoses("", chunks);
      SplitConserves(Flat(chunks));
      WeightNonEmpty(o.parsed);
    } else {
      RunKeepsStream("", chunks);
    }
  }

  /** A character and then an empty chunk: the character is lost. */
  lemma DropExample(chunks: seq<string>)
    requires chunks == ["a", ""]
    ensures Fits(Flat(chunks)) && Drops("", chunks)
    ensures !(NonEmpty(Run("", chunks).parsed) == LinesOf(Flat(chunks))
              && Run("", chunks).oldData == TailOf(Flat(chunks)))
  {
    assert chunks[1..] == [""] && Flat([""]) == "" && Flat(chunks) == "a";
    assert "" + "a" == "a" && TailOf("a") == "a";
    assert Drops("a", [""]);
    StreamRefinement(chunks);
  }

  // ---- server.c

  // The loop that copies up to a terminator, the end of the data or the end of the buffer.
  method FillBuffer(sendBuffer: array<char>, usedbuf: nat, tmpbuffer: string, at: nat) returns (n: nat, to: nat)
    requires usedbuf < MAX_IRC_LINE_LEN < sendBuffer.Length && at <= |tmpbuffer|
    modifies sendBuffer
    ensures at <= to <= |tmpbuffer| && n <= MAX_IRC_LINE_LEN
    ensures NextTurn(tmpbuffer[at..], old(sendBuffer[..usedbuf]))
         == Turn(sendBuffer[..n], to < |tmpbuffer| && IsEnd(tmpbuffer[to]), AfterEnds(tmpbuffer[to..]))
  {
    n, to := usedbuf, at;
    while to < |tmpbuffer| && !IsEnd(tmpbuffer[to]) && n < MAX_IRC_LINE_LEN
      invariant at <= to <= |tmpbuffer| && n <= MAX_IRC_LINE_LEN
      invariant NextTurn(tmpbuffer[at..], old(sendBuffer[..usedbuf])) == NextTurn(tmpbuffer[to..], sendBuffer[..n])
    {
      assert tmpbuffer[to..][1..] == tmpbuffer[to + 1..];
      ghost var used := sendBuffer[..n];
      sendBuffer[n] := tmpbuffer[to];
      n, to := n + 1, to + 1;
      assert sendBuffer[..n] == used + [tmpbuffer[to - 1]];
    }
    ghost var used := sendBuffer[..n];
    sendBuffer[n] := '\0';
    assert sendBuffer[..n] == used;
  }

  method SkipTerminators(tmpbuffer: string, at: nat) returns (to: nat, terminated: bool)
    requires at <= |tmpbuffer|
    ensures at <= to <= |tmpbuffer| && tmpbuffer[to..] == AfterEnds(tmpbuffer[at..])
    ensures terminated <==> at < |tmpbuffer| && IsEnd(tmpbuffer[at])
  {
    to, terminated := at, false;
    while to < |tmpbuffer| && IsEnd(tmpbuffer[to])
      invariant at <= to <= |tmpbuffer| && AfterEnds(tmpbuffer[at..]) == AfterEnds(tmpbuffer[to..])
      invariant terminated <==> to > at
      invariant to > at ==> IsEnd(tmpbuffer[at])
    {
      assert tmpbuffer[to..][1..] == tmpbuffer[to + 1..];
      to, terminated := to + 1, true;
    }
  }

  // The calls of parseLine made before, then those still to come.
  ghost function Onto(parsed: seq<string>, o: Outcome): Outcome {
    Outcome(parsed + o.parsed, o.oldData)
  }

  // What a turn does to the calls made and to oldData.
  ghost predicate Turned(t: Turn, parsed: seq<string>, oldData: string, parsed': seq<string>, oldData': string) {
    if t.terminated then parsed' == parsed + [t.line] && oldData' == oldData
    else parsed' == parsed && oldData' == Kept(t.line)
  }

  lemma ScanOn(whole: Outcome, chunk: string, used: string, t: Turn, parsed: seq<string>, oldData: string,
               parsed': seq<string>, oldData': string)
    requires chunk != "" && |used| < MAX_IRC_LINE_LEN && t == NextTurn(chunk, used)
    requires whole == Onto(parsed, Scan(chunk, used, oldData))
    requires Turned(t, parsed, oldData, parsed', oldData')
    ensures whole == Onto(parsed', Scan(t.rest, "", oldData'))
  {
    if t.terminated {
      var more := Scan(t.rest, "", oldData).parsed;
      assert parsed + ([t.line] + more) == parsed + [t.line] + more;
    }
  }

  class LineReader {
    // oldData, and the calls of parseLine so far.
    var oldData: string
    var parsed: seq<string>

    // strlen(oldData) >= MAX_IRC_LINE_LEN never holds, so breakLine never shuts services down.
    ghost predicate Valid()
      reads this
    {
      |oldData| < MAX_IRC_LINE_LEN
    }

    constructor ()
      ensures Valid() && oldData == "" && parsed == []
    {
      oldData := "";
      parsed := [];
    }

    /** breakLine. */
    method BreakLine(tmpbuffer: string)
      requires Valid()
      modifies this
      ensures Valid()
      ensures Outcome(parsed, oldData) == Onto(old(parsed), BreakChunk(old(oldData), tmpbuffer))
    {
      ghost var whole, used := Onto(parsed, BreakChunk(oldData, tmpbuffer)), oldData;
      var sendBuffer, usedbuf := TakeCarried();
      var at := 0;
      assert tmpbuffer[0..] == tmpbuffer;
      while at < |tmpbuffer|
        invariant at <= |tmpbuffer| && Valid() && fresh(sendBuffer) && sendBuffer.Length == MAX_IRC_LINE_LEN + 1
        invariant |used| == usedbuf < MAX_IRC_LINE_LEN && sendBuffer[..usedbuf] == used
        invariant whole == Onto(parsed, Scan(tmpbuffer[at..], used, oldData))
        decreases |tmpbuffer| - at
      {
        ghost var was, carried, chunk := parsed, oldData, tmpbuffer[at..];
        at := OneTurn(sendBuffer, usedbuf, tmpbuffer, at);
        ScanOn(whole, chunk, used, NextTurn(chunk, used), was, carried, parsed, oldData);
        usedbuf, used := 0, "";
      }
      assert tmpbuffer[at..] == "" && parsed + [] == parsed;
    }

    method TakeCarried() returns (sendBuffer: array<char>, usedbuf: nat)
      requires Valid()
      modifies this`oldData
      ensures fresh(sendBuffer) && sendBuffer.Length == MAX_IRC_LINE_LEN + 1
      ensures oldData == "" && usedbuf == |old(oldData)| && sendBuffer[..usedbuf] == old(oldData)
    {
      sendBuffer := new char[MAX_IRC_LINE_LEN + 1](_ => '\0');
      usedbuf := 0;
      if oldData != "" {
        forall i | 0 <= i < |oldData| {
          sendBuffer[i] := oldData[i];
        }
        usedbuf := |oldData|;
        assert sendBuffer[..usedbuf] == oldData;
        oldData := "";
      }
    }

    // One turn of the outer loop.
    method OneTurn(sendBuffer: array<char>, usedbuf: nat, tmpbuffer: string, at: nat) returns (to: nat)
      requires Valid() && at < |tmpbuffer| && usedbuf < MAX_IRC_LINE_LEN < sendBuffer.Length
      modifies this, sendBuffer
      ensures Valid() && at < to <= |tmpbuffer|
      ensures var t := NextTurn(tmpbuffer[at..], old(sendBuffer[..usedbuf]));
              tmpbuffer[to..] == t.rest && Turned(t, old(parsed), old(oldData), parsed, oldData)
    {
      var n, end := FillBuffer(sendBuffer, usedbuf, tmpbuffer, at);
      var line := sendBuffer[..n];
      var terminated;
      to, terminated := SkipTerminators(tmpbuffer, end);
      if terminated {
        parsed := parsed + [line];
      } else {
        oldData := Kept(line);
      }
    }
  }

  // ---- parseLine's words

  const MAX_ARGS := 150

  function WordLength(s: string): (n: nat)
    ensures n <= |s|
  {
    if s == "" || s[0] == ' ' then 0 else 1 + WordLength(s[1..])
  }

  // What goes into realargs, given room for `room` more rows of 150 characters.
  function Tokens(line: string, room: nat): (tokens: seq<string>)
    ensures |tokens| <= room
    decreases room, line
  {
    if line == "" || room == 0 then []
    else
      var n := Min(WordLength(line), MAX_ARGS);
      [line[..n]] + Tokens(ParseArgs.SkipAll(line[n..], ' '), room - 1)
  }

  function Spaced(words: seq<string>): string {
    if words == [] then "" else if |words| == 1 then words[0] else words[0] + " " + Spaced(words[1..])
  }

  lemma {:induction false} WordLengthOf(word: string, rest: string)
    requires Without(word, ' ')
    ensures WordLength(word + rest) == |word| + WordLength(rest)
  {
    if word == "" {
      assert word + rest == rest;
    } else {
      assert (word + rest)[1..] == word[1..] + rest;
      WordLengthOf(word[1..], rest);
    }
  }

  predicate TokenWords(words: seq<string>) {
    forall i :: 0 <= i < |words| ==> words[i] != "" && |words[i]| <= MAX_ARGS && Without(words[i], ' ')
  }

  lemma FirstToken(words: seq<string>, room: nat)
    requires words != [] && TokenWords(words) && room > 0
    ensures Tokens(Spaced(words), room) == [words[0]] + Tokens(Spaced(words[1..]), room - 1)
    ensures TokenWords(words[1..])
  {
    if |words| > 1 {
      SpacedStarts(words[1..]);
      OneToken(words[0], Spaced(words[1..]), room);
    } else {
      LastToken(words[0], room);
      assert Spaced(words) == words[0] && words[1..] == [];
    }
  }

  /** Words of at most 150 characters, at most 150 of them, come back as they were written. */
  lemma {:induction false} TokensOfWords(words: seq<string>, room: nat)
    requires |words| <= room && TokenWords(words)
    ensures Tokens(Spaced(words), room) == words
    decreases |words|
  {
    if words != [] {
      FirstToken(words, room);
      TokensOfWords(words[1..], room - 1);
    }
  }

  lemma OneToken(w: string, more: string, room: nat)
    requires w != "" && |w| <= MAX_ARGS && Without(w, ' ') && more != "" && more[0] != ' ' && room > 0
    ensures Tokens(w + " " + more, room) == [w] + Tokens(more, room - 1)
  {
    var line := w + " " + more;
    assert line == w + (" " + more);
    WordLengthOf(w, " " + more);
    assert line[..|w|] == w && line[|w|..] == " " + more;
    assert (" " + more)[1..] == more;
    assert ParseArgs.SkipAll(" " + more, ' ') == more;
  }

  lemma LastToken(w: string, room: nat)
    requires w != "" && |w| <= MAX_ARGS && Without(w, ' ') && room > 0
    ensures Tokens(w, room) == [w]
  {
    WordLengthOf(w, "");
    assert w + "" == w && w[..|w|] == w && w[|w|..] == "";
  }

  lemma SpacedStarts(words: seq<string>)
    requires words != [] && words[0] != "" && Without(words[0], ' ')
    ensures Spaced(words) != "" && Spaced(words)[0] != ' '
  {
    assert words[0][0] != ' ';
  }

  // A row holds the token and its terminator.
  ghost predicate RowHolds(realargs: array2<char>, row: nat, token: string)
    reads realargs
  {
    && row < realargs.Length0 && |token| < realargs.Length1
    && realargs[row, |token|] == '\0' && forall j :: 0 <= j < |token| ==> realargs[row, j] == token[j]
  }

  ghost predicate Rows(realargs: array2<char>, tokens: seq<string>)
    reads realargs
  {
    && realargs.Length0 == 151 && realargs.Length1 == 151
    && forall k :: 0 <= k < |tokens| ==> RowHolds(realargs, k, tokens[k])
  }

  /** The tokenising loop of parseLine: every row and column index is within realargs. */
  method Tokenise(line: string) returns (realargs: array2<char>, x: nat)
    ensures x == |Tokens(line, MAX_ARGS)| && Rows(realargs, Tokens(line, MAX_ARGS) + [""])
  {
    realargs := new char[151, 151];
    ghost var tokens := [];
    x := 0;
    var rest := line;
    while rest != "" && x < MAX_ARGS
      invariant x == |tokens| <= MAX_ARGS && fresh(realargs) && Rows(realargs, tokens)
      invariant tokens + Tokens(rest, MAX_ARGS - x) == Tokens(line, MAX_ARGS)
      decreases MAX_ARGS - x
    {
      var a := FillRow(realargs, tokens, x, rest);
      TokensStep(tokens, rest, a, MAX_ARGS - x);
      tokens := tokens + [rest[..a]];
      x := x + 1;
      rest := SkipSpaces(rest, a);
    }
    assert tokens + [] == tokens;
    EndRow(realargs, tokens, x);
  }

  // The empty word that ends the list.
  method EndRow(realargs: array2<char>, ghost tokens: seq<string>, x: nat)
    requires Rows(realargs, tokens) && x == |tokens| <= MAX_ARGS
    modifies realargs
    ensures Rows(realargs, tokens + [""])
  {
    realargs[x, 0] := '\0';
    assert RowHolds(realargs, x, "");
  }

  lemma TokensStep(tokens: seq<string>, rest: string, a: nat, room: nat)
    requires rest != "" && room > 0 && a == Min(WordLength(rest), MAX_ARGS)
    ensures tokens + Tokens(rest, room) == tokens + [rest[..a]] + Tokens(ParseArgs.SkipAll(rest[a..], ' '), room - 1)
  {
    var more := Tokens(ParseArgs.SkipAll(rest[a..], ' '), room - 1);
    assert tokens + ([rest[..a]] + more) == tokens + [rest[..a]] + more;
  }

  method FillRow(realargs: array2<char>, ghost tokens: seq<string>, x: nat, rest: string) returns (a: nat)
    requires Rows(realargs, tokens) && x == |tokens| <= MAX_ARGS
    modifies realargs
    ensures a <= |rest| && a == Min(WordLength(rest), MAX_ARGS)
    ensures Rows(realargs, tokens + [rest[..a]])
  {
    a := 0;
    while a < |rest| && rest[a] != ' ' && a < MAX_ARGS
      invariant a <= |rest| && a <= MAX_ARGS
      invariant forall i :: 0 <= i < a ==> rest[i] != ' ' && realargs[x, i] == rest[i]
      invariant Rows(realargs, tokens)
    {
      realargs[x, a] := rest[a];
      a := a + 1;
    }
    realargs[x, a] := '\0';
    WordLengthOf(rest[..a], rest[a..]);
    assert rest[..a] + rest[a..] == rest;
    assert RowHolds(realargs, x, rest[..a]);
  }

  method SkipSpaces(rest: string, a: nat) returns (t: string)
    requires a <= |rest|
    ensures t == ParseArgs.SkipAll(rest[a..], ' ')
  {
    var k := a;
    while k < |rest| && rest[k] == ' '
      invariant a <= k <= |rest|
      invariant forall i :: 0 <= i < k - a ==> rest[a..][i] == ' '
    {
      k := k + 1;
    }
    ParseArgs.SkipAllIs(rest[a..], ' ', k - a);
    t := rest[k..];
    assert rest[a..][k - a..] == rest[k..];
  }
}
