/** db.c: the `nick` line of nickserv.db. The flag word is the number written; time_t and long have 64 bits, and atol
    stays within them as strtol does. */
module NickRecord {
  import opened Text
  import opened ParseArgs
  import opened Base64
  import opened NewsFile
  import opened RegIds

  const PASSLEN := 15
  const NENCRYPT := 0x80000
  const ESC := 0x1B as char

  // ---- xorit

  // x ^ 0x1B, for x below 32: all five bits are turned over, and the third of them back.
  function XorLow(x: nat): (y: nat)
    requires x < 32
    ensures y < 32
  {
    var y := 31 - x;
    if 4 <= y < 8 || 12 <= y < 16 || 20 <= y < 24 || 28 <= y then y - 4 else y + 4
  }

  // The bits above.
  function High(x: nat): (h: nat)
    requires x < 0x100
    ensures h <= x < h + 32 && h <= 0xE0
  {
    if x < 0x20 then 0 else if x < 0x40 then 0x20 else if x < 0x60 then 0x40 else if x < 0x80 then 0x60
    else if x < 0xA0 then 0x80 else if x < 0xC0 then 0xA0 else if x < 0xE0 then 0xC0 else 0xE0
  }

  function Xor(x: nat): (y: nat)
    requires x < 0x100
    ensures y < 0x100
  {
    High(x) + XorLow(x - High(x))
  }

  lemma XorTwice(x: nat)
    requires x < 0x100
    ensures Xor(Xor(x)) == x
  {
  }

  lemma XorPoints(x: nat)
    requires x < 0x100
    ensures Xor(x) == 0 <==> x == 0x1B
    ensures Xor(x) == 0x20 <==> x == 0x3B
    ensures Xor(x) == 0x0A <==> x == 0x11
  {
    XorTwice(x);
  }

  // A blank or a newline is left as it was.
  function Flip(c: char): char {
    if c as int >= 0x100 then c
    else
      var d := Xor(c as int) as char;
      if d == ' ' || d == '\n' then c else d
  }

  lemma FlipTwice(c: char)
    ensures Flip(c) != ' ' && Flip(c) != '\n' && (Flip(c) == '\0' <==> c == ESC)
    ensures c != '\0' ==> (Flip(Flip(c)) == c <==> c != ' ' && c != '\n')
  {
    if c as int < 0x100 {
      XorTwice(c as int);
      XorPoints(c as int);
      XorPoints(Xor(c as int));
    }
  }

  // The loop ends where it has written a NUL.
  function Flipped(s: string): (t: string)
    ensures |t| <= |s|
  {
    if s == "" || Flip(s[0]) == '\0' then "" else [Flip(s[0])] + Flipped(s[1..])
  }

  function Xorit(s: string): (t: string)
    ensures |t| <= |s|
  {
    Flipped(if |s| <= 58 then s else s[..58])
  }

  lemma {:induction false} FlippedIsWord(s: string)
    ensures Without(Flipped(s), ' ') && Without(Flipped(s), '\n')
  {
    if s != "" && Flip(s[0]) != '\0' {
      FlipTwice(s[0]);
      FlippedIsWord(s[1..]);
    }
  }

  predicate XorSafe(s: string) {
    Without(s, ' ') && Without(s, '\n') && Without(s, ESC)
  }

  lemma {:induction false} FlippedTwice(s: string)
    requires Without(s, '\0')
    ensures Flipped(Flipped(s)) == s <==> XorSafe(s)
  {
    if s != "" {
      var d, t := Flip(s[0]), Flipped(s[1..]);
      FlipTwice(s[0]);
      FlipTwice(d);
      FlippedTwice(s[1..]);
      XorSafeFirst(s);
      if s[0] != ESC && d != ESC {
        assert Flipped(s) == [d] + t && ([d] + t)[1..] == t;
        assert Flipped([d] + t) == [Flip(d)] + Flipped(t);
        assert s == [s[0]] + s[1..];
        assert ([Flip(d)] + Flipped(t))[1..] == Flipped(t);
      }
    }
  }

  lemma XorSafeFirst(s: string)
    requires s != ""
    ensures XorSafe(s) <==> s[0] != ' ' && s[0] != '\n' && s[0] != ESC && XorSafe(s[1..])
  {
    assert s == [s[0]] + s[1..];
  }

  /** Coding a password of fewer than 59 characters twice gives it back exactly if it holds no blank, newline or
      escape. */
  lemma XoritTwiceIff(s: string)
    requires Without(s, '\0') && |s| <= 58
    ensures Xorit(Xorit(s)) == s <==> XorSafe(s)
  {
    FlippedTwice(s);
  }

  // ---- times

  type Time = x: int | -0x8000_0000_0000_0000 <= x < 0x8000_0000_0000_0000

  function Atol(s: string): Time {
    var n := Atoi(s);
    if n < -0x8000_0000_0000_0000 then -0x8000_0000_0000_0000
    else if n >= 0x8000_0000_0000_0000 then 0x7FFF_FFFF_FFFF_FFFF
    else n
  }

  // `%lu` of a time taken as an unsigned long.
  function PrintTime(t: Time): string {
    PrintNat(if t < 0 then t + 0x1_0000_0000_0000_0000 else t)
  }

  // What a time comes back as.
  function ReloadedTime(t: Time): Time {
    if t < 0 then 0x7FFF_FFFF_FFFF_FFFF else t
  }

  /** A time is read back as it was written exactly if it is not negative. */
  lemma AtolPrintTime(t: Time)
    ensures Atol(PrintTime(t)) == ReloadedTime(t)
    ensures Atol(PrintTime(t)) == t <==> t >= 0
  {
    AtoiPrintInt(if t < 0 then t + 0x1_0000_0000_0000_0000 else t);
  }

  // ---- the record

  // The password area holds a digest if the flag NENCRYPT is set, else text.
  datatype Password = Digest(octets: seq<Octet>) | Plain(text: string)

  datatype Nick = Nick(nick: string, user: string, host: string, password: Password,
                       timestamp: Time, timereg: Time, flags: int, id: RegId)

  predicate Encrypted(flags: int) {
    flags / NENCRYPT % 2 == 1
  }

  function SetEncrypted(flags: int, on: bool): (f: int)
    ensures Encrypted(f) == on
    ensures Encrypted(flags) == on ==> f == flags
  {
    NextHalf(flags);
    if Encrypted(flags) == on then flags else if on then flags + NENCRYPT else flags - NENCRYPT
  }

  lemma NextHalf(flags: int)
    ensures Encrypted(flags + NENCRYPT) == !Encrypted(flags) && Encrypted(flags - NENCRYPT) == !Encrypted(flags)
  {
    assert (flags + NENCRYPT) / NENCRYPT == flags / NENCRYPT + 1;
    assert (flags - NENCRYPT) / NENCRYPT == flags / NENCRYPT - 1;
  }

  function PasswordField(p: Password): string {
    match p
    case Digest(octets) => "$" + RfcEncode(octets)
    case Plain(text) => "@" + Xorit(text)
  }

  function RecordWords(nl: Nick): seq<string> {
    ["nick", nl.nick, if nl.user == "" then "." else nl.user, nl.host, PasswordField(nl.password),
     PrintTime(nl.timestamp), PrintTime(nl.timereg), PrintInt(nl.flags)]
  }

  // The line without its newline.
  function NickLine(nl: Nick): string {
    Words(RecordWords(nl)) + PrintId(nl.id)
  }

  // What readNickData carries from line to line: the version of the file, whether the last password it knew was a
  // digest, and the id it would give out.
  datatype Reader = Reader(version: int, doEnc: bool, next: RegId)

  // A password and the new doEnc; None where services stop or the read of 16 octets goes past what was allocated.
  datatype Secret = Secret(password: Password, doEnc: bool)

  function LoadPassword(field: string, r: Reader): Option<Secret> {
    if r.version < 2 then
      if |field| > PASSLEN then None else Some(Secret(Plain(Xorit(field)), r.doEnc))
    else if field != "" && field[0] == '@' then
      if |field| - 1 > PASSLEN then None else Some(Secret(Plain(Xorit(field[1..])), false))
    else if field != "" && field[0] == '$' then
      if |field| - 1 < 3 || !Without(field[1..], 255 as char) then None
      else Some(Secret(Digest(Sixteen(Decode(field[1..]))), true))
    else Some(Secret(Plain(""), r.doEnc))
  }

  // The first 16 octets of a cleared buffer that x was written to.
  function Sixteen(x: seq<Octet>): (y: seq<Octet>)
    ensures |y| == 16
  {
    if |x| >= 16 then x[..16] else x + seq(16 - |x|, _ => 0)
  }

  // The id of the record: read from the line since version 3, given out before.
  function LoadId(id: Option<string>, r: Reader): Option<RegId> {
    if r.version < 3 then Some(r.next) else if id.None? then None else ScanId(id.value)
  }

  // The record a line builds; None where services stop, a NULL argument would fault, or sscanf leaves a half of the id
  // without a defined value.
  function LoadNick(line: string, r: Reader): Option<Nick> {
    var words := TakeArgs(InitText(line), 8);
    NickFrom(words.args, NextArg(words.rest, ' ').arg, r)
  }

  function NickFrom(w: seq<Option<string>>, id: Option<string>, r: Reader): Option<Nick>
    requires |w| == 8
  {
    if None in w || w[0] != Some("nick") || |w[1].value| >= NICKLEN then None
    else match LoadPassword(w[4].value, r)
         case None => None
         case Some(p) =>
           match LoadId(id, r)
           case None => None
           case Some(regnum) =>
             Some(Nick(w[1].value, if |w[2].value| < USERLEN then w[2].value else w[2].value[..USERLEN - 1], w[3].value,
                       p.password, Atol(w[5].value), Atol(w[6].value), SetEncrypted(Atoi(w[7].value), p.doEnc), regnum))
  }

  // What a registration holds: words within their buffers, the user name possibly empty, and a password that fits the
  // flag.
  predicate Registrable(nl: Nick) {
    && |nl.nick| < NICKLEN && |nl.user| < USERLEN
    && AreWords([nl.nick, nl.host]) && Without(nl.user, ' ') && Without(nl.user, '\n')
    && Encrypted(nl.flags) == nl.password.Digest? && Holds(nl.password)
  }

  predicate Holds(p: Password) {
    match p
    case Digest(octets) => |octets| == 16
    case Plain(text) => |text| <= PASSLEN && Without(text, '\0')
  }

  // What a password comes back as.
  function ReloadedPassword(p: Password): Password {
    match p
    case Digest(_) => p
    case Plain(text) => Plain(Xorit(Xorit(text)))
  }

  /** A digest comes back from its field, and a text coded twice. */
  lemma PasswordSurvives(p: Password, r: Reader)
    requires Holds(p) && r.version >= 2
    ensures LoadPassword(PasswordField(p), r) == Some(Secret(ReloadedPassword(p), p.Digest?))
    ensures AreWords([PasswordField(p)])
  {
    var field := PasswordField(p);
    match p
    case Digest(octets) =>
      assert field[1..] == RfcEncode(octets);
      RoundTrip(octets);
      EncodingIsToken(octets);
      EncodingHasNo(octets, '\n');
      EncodingHasNo(octets, 255 as char);
      RfcEncodeLength(octets);
      assert Sixteen(Padded(octets)) == octets;
    case Plain(text) =>
      assert field[1..] == Xorit(text);
      FlippedIsWord(text);
  }

  /** A file can hold a digest of three octets 255: the field is one word, and fromBase64 reads behind its table. */
  lemma OverreadExample(field: string, r: Reader)
    requires field == ['$'] + Repeat(255 as char, 3) && r.version >= 2
    ensures AreWords([field]) && IsCString(field) && !InTable(field[1..]) && LoadPassword(field, r) == None
  {
    assert field[1..] == Repeat(255 as char, 3) && field[1..][0] == 255 as char;
    InTableIff(field[1..]);
  }

  lemma RecordIsWords(nl: Nick, r: Reader)
    requires Registrable(nl) && r.version >= 2
    ensures AreWords(RecordWords(nl))
  {
    PasswordSurvives(nl.password, r);
    PrintedInt(nl.flags);
    var w := RecordWords(nl);
    assert [nl.nick, nl.host][0] == nl.nick && [nl.nick, nl.host][1] == nl.host;
    assert [PasswordField(nl.password)][0] == w[4];
    forall i | 0 <= i < |w|
      ensures w[i] != "" && Without(w[i], ' ') && Without(w[i], '\n')
    {
      assert i == 0 || i == 1 || i == 2 || i == 3 || i == 4 || i == 5 || i == 6 || i == 7;
    }
  }

  function ReloadedNick(nl: Nick): Nick {
    nl.(user := if nl.user == "" then "." else nl.user, password := ReloadedPassword(nl.password),
        timestamp := ReloadedTime(nl.timestamp), timereg := ReloadedTime(nl.timereg))
  }

  /** Every field of the record is reloaded as it was saved, the id with it; the empty user name as a dot, a plain
      password coded twice, and a negative time as the largest. */
  lemma NickRoundTrip(nl: Nick, r: Reader)
    requires Registrable(nl) && r.version >= 3
    ensures LoadNick(NickLine(nl), r) == Some(ReloadedNick(nl))
  {
    var w := RecordWords(nl);
    RecordIsWords(nl, r);
    var id := PrintId(nl.id);
    TakePrintedWords(w, id);
    assert NickLine(nl) != "" by { assert w[0] == "nick"; }
    PrintIdIsWord(nl.id);
    NextArgOfPrinted(id, ' ', "");
    LoadedFields(nl, r);
  }

  lemma LoadedFields(nl: Nick, r: Reader)
    requires Registrable(nl) && r.version >= 3
    ensures NickFrom(Somes(RecordWords(nl)), Some(PrintId(nl.id)), r) == Some(ReloadedNick(nl))
  {
    var s := Somes(RecordWords(nl));
    assert None !in s;
    PasswordSurvives(nl.password, r);
    AtolPrintTime(nl.timestamp);
    AtolPrintTime(nl.timereg);
    ScanPrintId(nl.id);
    PrintedInt(nl.flags);
    assert s[4] == Some(PasswordField(nl.password)) && s[1] == Some(nl.nick) && s[3] == Some(nl.host);
  }

  /** The line read back from the file gives exactly the saved record if and only if the user name is not empty, no
      time is negative and a plain password holds no blank, newline or escape; digest and id survive always. */
  lemma NickReloadIff(nl: Nick, rest: string, r: Reader)
    requires Registrable(nl) && |NickLine(nl)| <= 1022 && r.version >= 3
    ensures Sfgets(NickLine(nl) + "\n" + rest, 1024) == Line(NickLine(nl), rest)
    ensures LoadNick(NickLine(nl), r) == Some(nl) <==>
            nl.user != "" && nl.timestamp >= 0 && nl.timereg >= 0 && (nl.password.Plain? ==> XorSafe(nl.password.text))
    ensures LoadNick(NickLine(nl), r).Some? && LoadNick(NickLine(nl), r).value.id == nl.id
    ensures nl.password.Digest? ==> LoadNick(NickLine(nl), r).value.password == nl.password
  {
    NickRoundTrip(nl, r);
    RecordIsWords(nl, r);
    WordsWithoutNewline(RecordWords(nl));
    PrintIdIsWord(nl.id);
    SfgetsLine(NickLine(nl), rest, 1024);
    if nl.password.Plain? {
      XoritTwiceIff(nl.password.text);
    }
  }

  lemma EmptyUserReload(nl: Nick, r: Reader)
    requires Registrable(nl) && r.version >= 3 && nl.user == "" && nl.password.Plain? && XorSafe(nl.password.text)
    requires nl.timestamp >= 0 && nl.timereg >= 0
    ensures LoadNick(NickLine(nl), r) == Some(nl.(user := "."))
  {
    NickRoundTrip(nl, r);
    XoritTwiceIff(nl.password.text);
  }

  lemma NegativeTimeReload(nl: Nick, r: Reader)
    requires Registrable(nl) && r.version >= 3 && nl.user != "" && nl.password.Plain? && XorSafe(nl.password.text)
    requires nl.timestamp < 0 <= nl.timereg
    ensures LoadNick(NickLine(nl), r) == Some(nl.(timestamp := 0x7FFF_FFFF_FFFF_FFFF))
  {
    NickRoundTrip(nl, r);
    XoritTwiceIff(nl.password.text);
  }

  lemma EscapeReload(nl: Nick, r: Reader)
    requires Registrable(nl) && r.version >= 3 && nl.user != "" && nl.password == Plain([ESC])
    requires nl.timestamp >= 0 && nl.timereg >= 0
    ensures LoadNick(NickLine(nl), r) == Some(nl.(password := Plain("")))
  {
    NickRoundTrip(nl, r);
    FlipTwice(ESC);
  }

  function Example(user: string, text: string): Nick {
    Nick("nick", user, "host", Plain(text), 1, 1, 0, RegId(0, 1001))
  }

  lemma ExampleIsRegistrable(user: string, text: string)
    requires |user| < USERLEN && Without(user, ' ') && Without(user, '\n') && |text| <= PASSLEN && Without(text, '\0')
    ensures Registrable(Example(user, text))
  {
    assert AreWords(["nick", "host"]) && !Encrypted(0);
  }

  /** A record without a user name. */
  lemma EmptyUserExample(r: Reader, text: string)
    requires r.version == 3 && text == "pass"
    ensures LoadNick(NickLine(Example("", text)), r) == Some(Example(".", text))
  {
    ExampleIsRegistrable("", text);
    EmptyUserReload(Example("", text), r);
  }

  /** And one whose password is an escape. */
  lemma EscapeExample(r: Reader, text: string)
    requires r.version == 3 && text == [ESC]
    ensures LoadNick(NickLine(Example("user", text)), r) == Some(Example("user", ""))
  {
    ExampleIsRegistrable("user", text);
    EscapeReload(Example("user", text), r);
  }

  /** And one with a time before 1970. */
  lemma NegativeTimeExample(nl: Nick, text: string, r: Reader)
    requires text == "pass" && nl == Example("user", text).(timestamp := -1) && r.version == 3
    ensures LoadNick(NickLine(nl), r) == Some(nl.(timestamp := 0x7FFF_FFFF_FFFF_FFFF))
  {
    ExampleIsRegistrable("user", text);
    NegativeTimeReload(nl, r);
  }

  // ---- the same, as db.c does it

  lemma FlippedStep(done: string, s: string, i: nat)
    requires i < |s|
    ensures done + Flipped(s[i..]) == if Flip(s[i]) == '\0' then done else (done + [Flip(s[i])]) + Flipped(s[i + 1..])
  {
    assert s[i..][1..] == s[i + 1..];
    var more := Flipped(s[i + 1..]);
    assert done + ([Flip(s[i])] + more) == (done + [Flip(s[i])]) + more;
    assert done + "" == done;
  }

  // The loop of xorit; a NUL written ends the string.
  method XoritLoop(tocrypt: string) returns (uncrypted: string)
    ensures uncrypted == Xorit(tocrypt)
  {
    var text := if |tocrypt| <= 58 then tocrypt else tocrypt[..58];
    uncrypted := text;
    var i := 0;
    assert "" + Flipped(text[0..]) == Flipped(text) by { assert text[0..] == text; }
    while i < |uncrypted|
      invariant i <= |uncrypted| == |text| && uncrypted[i..] == text[i..]
      invariant uncrypted[..i] + Flipped(text[i..]) == Flipped(text)
    {
      FlippedStep(uncrypted[..i], text, i);
      assert uncrypted[i] == uncrypted[i..][0] == text[i..][0] == text[i];
      var c := Flip(uncrypted[i]);
      if c == '\0' {
        uncrypted := uncrypted[..i];
        return;
      }
      ghost var done := uncrypted[..i];
      uncrypted := uncrypted[i := c];
      i := i + 1;
      assert uncrypted[..i] == done + [c];
    }
    assert uncrypted[..i] + "" == uncrypted;
  }

  /** The `nick` line of saveNickData. */
  method SaveNick(fp: File, nl: Nick)
    requires Encrypted(nl.flags) == nl.password.Digest? && Holds(nl.password)
    modifies fp
    ensures fp.text == old(fp.text) + Words(RecordWords(nl)) + (PrintId(nl.id) + "\n")
  {
    var field;
    if !Encrypted(nl.flags) {
      var cryptstr := XoritLoop(nl.password.text);
      field := "@" + cryptstr;
    } else {
      var p := PasswordText(nl.password.octets);
      field := "$" + p;
    }
    var words := ["nick", nl.nick, if nl.user == "" then "." else nl.user, nl.host, field,
                  PrintTime(nl.timestamp), PrintTime(nl.timereg), PrintInt(nl.flags)];
    PrintWords(fp, words);
    fp.Print(PrintId(nl.id) + "\n");
  }

  method PrintWords(fp: File, words: seq<string>)
    modifies fp
    ensures fp.text == old(fp.text) + Words(words)
  {
    ghost var whole := fp.text + Words(words);
    assert words[0..] == words;
    for i := 0 to |words|
      invariant whole == fp.text + Words(words[i..])
    {
      WordsFrom(fp.text, words, i);
      fp.Print(words[i] + " ");
    }
  }

  lemma WordsFrom(before: string, w: seq<string>, i: nat)
    requires i < |w|
    ensures before + Words(w[i..]) == before + (w[i] + " ") + Words(w[i + 1..])
  {
    assert w[i..][1..] == w[i + 1..];
    assert before + (w[i] + " " + Words(w[i + 1..])) == before + (w[i] + " ") + Words(w[i + 1..]);
  }

  method PasswordText(password: seq<Octet>) returns (p: string)
    requires |password| == 16
    ensures p == RfcEncode(password)
  {
    var s, written, aborted := ToBase64(password);
    EncodingIsToken(password);
    assert s[..written][..written - 1] == RfcEncode(password);
    CStringIs(s[..], 0, written - 1);
    assert s[..][0..written - 1] == s[..written][..written - 1];
    p := ReadCString(s, 0);
  }

  method ReadWords(line: string) returns (words: seq<Option<string>>, id: Option<string>)
    requires Without(line, '\0')
    ensures var w := TakeArgs(InitText(line), 8);
            words == w.args && id == NextArg(w.rest, ' ').arg
  {
    var state := ParserFor(line, ' ');
    words := TakeTokens(state, 8);
    id := state.GetToken();
  }

  // A text cut out of another.
  predicate Within(a: Option<string>, b: Option<string>) {
    a.Some? ==> b.Some? && |a.value| <= |b.value| && forall i :: 0 <= i < |a.value| ==> a.value[i] in b.value
  }

  lemma {:induction false} SkipWithin(s: string, delim: char)
    ensures Within(Some(SkipAll(s, delim)), Some(s))
  {
    if s != "" && s[0] == delim {
      SkipWithin(s[1..], delim);
    }
  }

  lemma NextWithin(text: Option<string>, delim: char)
    ensures Within(NextArg(text, delim).arg, text) && Within(NextArg(text, delim).rest, text)
  {
    if text.Some? {
      SkipWithin(text.value, delim);
    }
  }

  lemma {:induction false} WordsWithin(text: Option<string>, n: nat, k: nat)
    requires k < n
    ensures Within(TakeArgs(text, n).args[k], text)
    decreases n
  {
    NextWithin(text, ' ');
    if k > 0 {
      WordsWithin(NextArg(text, ' ').rest, n - 1, k - 1);
    }
  }

  /** The password field in readNickData. */
  method ReadPassword(field: string, r: Reader) returns (p: Option<Secret>)
    requires IsCString(field) && |field| <= DECODE_LIMIT
    ensures p == LoadPassword(field, r)
  {
    if r.version < 2 {
      if |field| > PASSLEN {
        return None;
      }
      var text := XoritLoop(field);
      return Some(Secret(Plain(text), r.doEnc));
    }
    if field != "" && field[0] == '@' {
      if |field[1..]| > PASSLEN {
        return None;
      }
      var text := XoritLoop(field[1..]);
      return Some(Secret(Plain(text), false));
    } else if field != "" && field[0] == '$' {
      var t := field[1..];
      var tmpup, len, over := FromBase64(t);
      if over || tmpup.Length < 16 {
        return None;
      }
      SixteenOf(tmpup[..], len);
      assert tmpup[..][..len] == tmpup[..len] && tmpup[..][..16] == tmpup[..16];
      return Some(Secret(Digest(tmpup[..16]), true));
    }
    return Some(Secret(Plain(""), r.doEnc));
  }

  lemma SixteenOf(s: seq<Octet>, len: nat)
    requires 16 <= |s| && len <= |s| && forall i :: len <= i < |s| ==> s[i] == 0
    ensures s[..16] == Sixteen(s[..len])
  {
  }

  // The `nick` branch of readNickData on the arguments it has cut off.
  method BuildNick(words: seq<Option<string>>, id: Option<string>, r: Reader) returns (nl: Option<Nick>)
    requires |words| == 8 && (words[4].Some? ==> IsCString(words[4].value) && |words[4].value| <= DECODE_LIMIT)
    ensures nl == NickFrom(words, id, r)
  {
    if None in words || words[0] != Some("nick") || |words[1].value| >= NICKLEN {
      return None;
    }
    var p := ReadPassword(words[4].value, r);
    if p.None? {
      return None;
    }
    var regnum := if r.version < 3 then Some(r.next) else if id.None? then None else ScanId(id.value);
    if regnum.None? {
      return None;
    }
    nl := Some(Nick(words[1].value,
                    if |words[2].value| < USERLEN then words[2].value else words[2].value[..USERLEN - 1],
                    words[3].value, p.value.password, Atol(words[5].value), Atol(words[6].value),
                    SetEncrypted(Atoi(words[7].value), p.value.doEnc), regnum.value));
  }

  /** The `nick` branch of readNickData, with the calls of fromBase64 it makes. */
  method ReadNick(fp: File, r: Reader) returns (nl: Option<Nick>)
    requires IsCString(fp.text)
    modifies fp
    ensures nl == match Sfgets(old(fp.text), 1024)
                  case Eof => None
                  case Line(line, _) => LoadNick(line, r)
  {
    ghost var text := fp.text;
    var dbLine := fp.Gets(1024);
    if dbLine.None? {
      return None;
    }
    var line := dbLine.value;
    var words, id := ReadWords(line);
    WordsWithin(InitText(line), 8, 4);
    if words[4].Some? {
      forall i | 0 <= i < |words[4].value|
        ensures words[4].value[i] in text
      {
        assert words[4].value[i] in line;
      }
    }
    nl := BuildNick(words, id, r);
  }
}
