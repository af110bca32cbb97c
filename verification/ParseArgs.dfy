/** parse.c: the tokeniser that cuts a line up in place, by writing NULs over the delimiters it passes. */
module ParseArgs {
  import opened Text

  // The C string that starts at i.
  function CString(b: seq<char>, i: nat): string
    requires i <= |b|
    decreases |b| - i
  {
    if i == |b| || b[i] == '\0' then "" else [b[i]] + CString(b, i + 1)
  }

  lemma {:induction false} CStringIs(b: seq<char>, i: nat, n: nat)
    requires i + n < |b| && b[i + n] == '\0' && forall k :: i <= k < i + n ==> b[k] != '\0'
    ensures CString(b, i) == b[i..i + n]
    decreases n
  {
    if n > 0 {
      CStringIs(b, i + 1, n - 1);
      assert b[i..i + n] == [b[i]] + b[i + 1..i + n];
    }
  }

  // ---- what the calls return, as functions of the text still to be parsed

  function SkipAll(s: string, delim: char): (t: string)
    ensures |t| <= |s| && (t == "" || t[0] != delim)
  {
    if s != "" && s[0] == delim then SkipAll(s[1..], delim) else s
  }

  function TokenLength(s: string, delim: char): (n: nat)
    ensures n <= |s| && Without(s[..n], delim) && (n == |s| || s[n] == delim)
  {
    if s == "" || s[0] == delim then 0 else 1 + TokenLength(s[1..], delim)
  }

  function DropTrailing(s: string, delim: char): (t: string)
    ensures |t| <= |s| && t == s[..|t|] && (t == "" || t[|t| - 1] != delim)
  {
    if s != "" && s[|s| - 1] == delim then DropTrailing(s[..|s| - 1], delim) else s
  }

  lemma {:induction false} SkipAllIs(s: string, delim: char, n: nat)
    requires n <= |s| && forall k :: 0 <= k < n ==> s[k] == delim
    requires n == |s| || s[n] != delim
    ensures SkipAll(s, delim) == s[n..]
  {
    if n > 0 {
      SkipAllIs(s[1..], delim, n - 1);
    }
  }

  lemma {:induction false} TokenLengthIs(s: string, delim: char, n: nat)
    requires n <= |s| && forall k :: 0 <= k < n ==> s[k] != delim
    requires n == |s| || s[n] == delim
    ensures TokenLength(s, delim) == n
  {
    if n > 0 {
      TokenLengthIs(s[1..], delim, n - 1);
    }
  }

  lemma {:induction false} DropTrailingIs(s: string, delim: char, n: nat)
    requires n <= |s| && forall k :: n <= k < |s| ==> s[k] == delim
    requires n == 0 || s[n - 1] != delim
    ensures DropTrailing(s, delim) == s[..n]
    decreases |s|
  {
    if n < |s| {
      DropTrailingIs(s[..|s| - 1], delim, n);
    }
  }

  // The next token and the text left behind it; None stands for NULL in both places.
  datatype Parsed = Parsed(arg: Option<string>, rest: Option<string>)

  function NextArg(text: Option<string>, delim: char): (p: Parsed)
    ensures p.rest.Some? ==> text.Some? && |p.rest.value| < |text.value|
  {
    if text.None? then Parsed(None, None)
    else
      var s := SkipAll(text.value, delim);
      var n := TokenLength(s, delim);
      if s == "" then Parsed(None, None)
      else Parsed(Some(s[..n]), if n == |s| then None else Some(s[n + 1..]))
  }

  function AllArgs(text: Option<string>, delim: char): Parsed {
    if text.None? then Parsed(None, None)
    else
      var s := SkipAll(text.value, delim);
      var t := if s != "" && s[0] == ':' then s[1..] else s;
      var u := DropTrailing(SkipAll(t, delim), delim);
      Parsed(if u == "" then None else Some(u), None)
  }

  lemma {:induction false} TokenThenDelim(tok: string, delim: char, rest: string)
    requires Without(tok, delim)
    ensures TokenLength(tok + [delim] + rest, delim) == |tok|
  {
    if tok != "" {
      TokenThenDelim(tok[1..], delim, rest);
      assert (tok + [delim] + rest)[1..] == tok[1..] + [delim] + rest;
    }
  }

  lemma {:induction false} TokenAlone(tok: string, delim: char)
    requires Without(tok, delim)
    ensures TokenLength(tok, delim) == |tok|
  {
    if tok != "" {
      TokenAlone(tok[1..], delim);
    }
  }

  /** The tokeniser gives back a non-empty token that was printed before a delimiter, and what followed it. */
  lemma NextArgOfPrinted(tok: string, delim: char, rest: string)
    requires tok != "" && Without(tok, delim)
    ensures NextArg(Some(tok + [delim] + rest), delim) == Parsed(Some(tok), Some(rest))
    ensures NextArg(Some(tok), delim) == Parsed(Some(tok), None)
  {
    TokenThenDelim(tok, delim, rest);
    TokenAlone(tok, delim);
    assert (tok + [delim] + rest)[..|tok|] == tok && (tok + [delim] + rest)[|tok| + 1..] == rest;
    assert tok[..|tok|] == tok;
  }

  /** Delimiters before a token make no difference. */
  lemma NextArgSkips(delim: char, rest: string)
    ensures NextArg(Some([delim] + rest), delim) == NextArg(Some(rest), delim)
  {
    assert ([delim] + rest)[1..] == rest;
  }

  // A text that parse_getallargs returns unchanged.
  predicate Trimmed(s: string, delim: char) {
    s != "" && s[0] != delim && s[0] != ':' && s[|s| - 1] != delim
  }

  /** parse_getallargs returns a text unchanged exactly if it has no delimiter at either end, no leading colon
      and is not empty. */
  lemma AllArgsUnchangedIff(s: string, delim: char)
    requires delim != ':'
    ensures AllArgs(Some(s), delim).arg == Some(s) <==> Trimmed(s, delim)
  {
  }

  function InitText(line: string): Option<string> {
    if line == "" then None else Some(line)
  }

  lemma Slices(a: array<char>, i: nat, j: nat, k: nat)
    requires i <= j <= k <= a.Length
    ensures a[i..k][..j - i] == a[i..j] && a[i..k][j - i..] == a[j..k]
  {
    assert forall n :: 0 <= n < j - i ==> a[i..k][n] == a[i..j][n];
    assert forall n :: 0 <= n < k - j ==> a[i..k][j - i + n] == a[j..k][n];
  }

  // What a `%s` prints of the pointer to position i.
  method ReadCString(buffer: array<char>, i: nat) returns (s: string)
    requires i <= buffer.Length
    ensures s == CString(buffer[..], i)
  {
    s := "";
    var k := i;
    while k < buffer.Length && buffer[k] != '\0'
      invariant i <= k <= buffer.Length
      invariant CString(buffer[..], i) == s + CString(buffer[..], k)
    {
      s := s + [buffer[k]];
      k := k + 1;
    }
  }

  // ---- parse_t

  class ParseState {
    const buffer: array<char>
    var current: Option<nat>
    var delim: char
    ghost var end: nat

    // The C string at i ends at `end`.
    ghost predicate Terminated(i: nat)
      reads this, buffer
    {
      i <= end < buffer.Length && buffer[end] == '\0' && forall k :: i <= k < end ==> buffer[k] != '\0'
    }

    ghost predicate Valid()
      reads this, buffer
    {
      delim != '\0' && (current.Some? ==> Terminated(current.value))
    }

    // The text still to be parsed.
    ghost function Rest(): Option<string>
      reads this, buffer
      requires Valid()
    {
      if current.None? then None else Some(buffer[current.value..end])
    }

    /** parse_init; `buffer` holds the line and its terminator. */
    constructor (buffer: array<char>, ghost line: string, delim: char)
      requires buffer.Length > |line| && buffer[..|line|] == line && buffer[|line|] == '\0' && Without(line, '\0')
      requires delim != '\0'
      ensures this.buffer == buffer && this.delim == delim
      ensures Valid() && Rest() == InitText(line)
    {
      this.buffer := buffer;
      this.delim := delim;
      end := |line|;
      current := if buffer[0] == '\0' then None else Some(0);
      new;
      assert forall k :: 0 <= k < |line| ==> buffer[k] == buffer[..|line|][k];
      assert buffer[0..end] == line;
    }

    method SkipFrom(i: nat) returns (c: nat)
      requires Terminated(i) && delim != '\0'
      ensures i <= c && Terminated(c) && buffer[c..end] == SkipAll(buffer[i..end], delim)
    {
      c := i;
      while buffer[c] == delim
        invariant i <= c <= end
        invariant forall k :: i <= k < c ==> buffer[k] == delim
        decreases end - c
      {
        c := c + 1;
      }
      SkipAllIs(buffer[i..end], delim, c - i);
      Slices(buffer, i, c, end);
    }

    method TokenFrom(i: nat) returns (c: nat)
      requires Terminated(i)
      ensures i <= c && Terminated(c) && c - i == TokenLength(buffer[i..end], delim)
      ensures buffer[c] == delim || c == end
    {
      c := i;
      while buffer[c] != delim && buffer[c] != '\0'
        invariant i <= c <= end
        invariant forall k :: i <= k < c ==> buffer[k] != delim
        decreases end - c
      {
        c := c + 1;
      }
      TokenLengthIs(buffer[i..end], delim, c - i);
    }

    method EndFrom(i: nat) returns (c: nat)
      requires Terminated(i)
      ensures c == end
    {
      c := i;
      while buffer[c] != '\0'
        invariant i <= c <= end
        decreases end - c
      {
        c := c + 1;
      }
    }

    /** parse_getarg. What lies before the old position is not written, so earlier tokens keep their text. */
    method GetArg() returns (arg: Option<nat>)
      requires Valid()
      modifies this`current, buffer
      ensures Valid()
      ensures var p := NextArg(old(Rest()), delim);
              && Rest() == p.rest
              && (arg.Some? <==> p.arg.Some?)
              && (arg.Some? ==> arg.value <= buffer.Length && CString(buffer[..], arg.value) == p.arg.value)
      ensures old(current).Some? ==>
                forall k :: 0 <= k < old(current).value < buffer.Length ==> buffer[k] == old(buffer[k])
    {
      if current.None? {
        return None;
      }
      ghost var p := NextArg(Rest(), delim);
      var start := SkipFrom(current.value);
      if buffer[start] == '\0' {
        current := None;
        return None;
      }
      var c := TokenFrom(start);
      TokenAt(p, start, c);
      CutAt(start, c);
      return Some(start);
    }

    // The token is what TokenFrom has found.
    lemma TokenAt(p: Parsed, start: nat, c: nat)
      requires Valid() && current.Some? && p == NextArg(Rest(), delim)
      requires Terminated(start) && start < end && buffer[start..end] == SkipAll(buffer[current.value..end], delim)
      requires start <= c <= end && c - start == TokenLength(buffer[start..end], delim)
      ensures p == Parsed(Some(buffer[start..c]), if c == end then None else Some(buffer[c + 1..end]))
    {
      Slices(buffer, start, c, end);
      if c < end {
        Slices(buffer, start, c + 1, end);
      }
    }

    // The delimiter behind the token becomes its terminator, and the text goes on behind it.
    method CutAt(start: nat, c: nat)
      requires Terminated(start) && delim != '\0' && start <= c <= end && (buffer[c] == delim || c == end)
      modifies this`current, buffer
      ensures Valid() && Rest() == if c == end then None else Some(old(buffer[c + 1..end]))
      ensures CString(buffer[..], start) == old(buffer[start..c])
      ensures forall k :: 0 <= k < c ==> buffer[k] == old(buffer[k])
    {
      ghost var token := buffer[start..c];
      if buffer[c] == delim {
        ghost var rest := buffer[c + 1..end];
        buffer[c] := '\0';
        current := Some(c + 1);
        assert buffer[start..c] == token && buffer[c + 1..end] == rest;
      } else {
        current := None;
      }
      TokenText(start, c);
    }

    lemma TokenText(start: nat, c: nat)
      requires start <= c < buffer.Length && buffer[c] == '\0' && forall k :: start <= k < c ==> buffer[k] != '\0'
      ensures CString(buffer[..], start) == buffer[start..c]
    {
      CStringIs(buffer[..], start, c - start);
      assert buffer[..][start..c] == buffer[start..c];
    }

    // Where the text from c ends once trailing delimiters are dropped.
    method TrimmedEnd(c: nat) returns (e: nat)
      requires Terminated(c) && c < end && buffer[c] != delim
      ensures c < e <= end && buffer[c..e] == DropTrailing(buffer[c..end], delim)
    {
      e := EndFrom(c);
      e := e - 1;
      while e != c && buffer[e] == delim
        invariant c <= e < end
        invariant forall k :: e < k < end ==> buffer[k] == delim
      {
        e := e - 1;
      }
      assert buffer[e] != delim;
      e := e + 1;
      DropTrailingIs(buffer[c..end], delim, e - c);
      Slices(buffer, c, e, end);
    }

    /** parse_getallargs; the third of its NULL returns is never taken. */
    method GetAllArgs() returns (arg: Option<nat>)
      requires Valid() && delim != ':'
      modifies this`current, buffer
      ensures Valid()
      ensures var p := AllArgs(old(Rest()), delim);
              && Rest() == p.rest
              && (arg.Some? <==> p.arg.Some?)
              && (arg.Some? ==> arg.value <= buffer.Length && CString(buffer[..], arg.value) == p.arg.value)
    {
      if current.None? {
        return None;
      }
      var c := AfterColon();
      current := None;
      if buffer[c] == '\0' {
        return None;
      }
      EndAtTrimmed(c);
      return Some(c);
    }

    // Delimiters, one colon, and delimiters again.
    method AfterColon() returns (c: nat)
      requires Valid() && current.Some?
      ensures Terminated(c)
      ensures var s := SkipAll(Rest().value, delim);
              buffer[c..end] == SkipAll(if s != "" && s[0] == ':' then s[1..] else s, delim)
    {
      c := SkipFrom(current.value);
      if buffer[c] == ':' {
        Slices(buffer, c, c + 1, end);
        c := c + 1;
      }
      c := SkipFrom(c);
    }

    // A NUL behind the last character that is no delimiter.
    method EndAtTrimmed(c: nat)
      requires Terminated(c) && c < end && buffer[c] != delim
      modifies buffer
      ensures CString(buffer[..], c) == old(DropTrailing(buffer[c..end], delim)) != ""
    {
      var e := TrimmedEnd(c);
      ghost var kept := buffer[c..e];
      buffer[e] := '\0';
      assert buffer[c..e] == kept;
      TokenText(c, e);
    }

    /** parse_getarg followed by a use of the token's text. */
    method GetToken() returns (token: Option<string>)
      requires Valid()
      modifies this`current, buffer
      ensures Valid() && Parsed(token, Rest()) == NextArg(old(Rest()), delim)
    {
      var p := GetArg();
      if p.None? {
        return None;
      }
      var s := ReadCString(buffer, p.value);
      return Some(s);
    }

    /** parse_getallargs followed by a use of the text. */
    method GetAllText() returns (token: Option<string>)
      requires Valid() && delim != ':'
      modifies this`current, buffer
      ensures Valid() && Parsed(token, Rest()) == AllArgs(old(Rest()), delim)
    {
      var p := GetAllArgs();
      if p.None? {
        return None;
      }
      var s := ReadCString(buffer, p.value);
      return Some(s);
    }
  }
}
