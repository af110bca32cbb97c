/** chanserv.c: what a SET MLOCK string means, read from its end: for every mode the last mention of it decides, under
    the sign then in force. */
module ModeMentions {
  import opened Text
  import opened ModeLock

  function Last(text: string): char
    requires text != ""
  {
    text[|text| - 1]
  }

  function Rest(text: string): (rest: string)
    requires text != ""
    ensures |rest| == |text| - 1
  {
    text[..|text| - 1]
  }

  // The sign in force behind the text, plus at first; every = but the first is a plus.
  predicate Adding(text: string)
    decreases |text|
  {
    if text == "" then true
    else if Last(text) == '+' || (Last(text) == '=' && '=' in Rest(text)) then true
    else if Last(text) == '-' then false
    else Adding(Rest(text))
  }

  // How many arguments the text asks for: one for each k and l under a plus.
  function Asked(text: string): nat
    decreases |text|
  {
    if text == "" then 0
    else Asked(Rest(text)) + if (Last(text) == 'k' || Last(text) == 'l') && Adding(Rest(text)) then 1 else 0
  }

  datatype Verdict = Unmentioned | Cleared | Locked(on: bool)

  // The last mention of x in a text with n arguments. A k or l under a plus without an argument left is none, and the
  // first = clears what is before it.
  function Mention(text: string, x: Mode, n: nat): Verdict
    decreases |text|
  {
    if text == "" then Unmentioned
    else
      var before := Rest(text);
      if Last(text) == Letter(x) && (x == K || x == L) && Adding(before) && Asked(before) >= n then
        Mention(before, x, n)
      else if Last(text) == Letter(x) then Locked(Adding(before))
      else if Last(text) == '=' && '=' !in before then Cleared
      else Mention(before, x, n)
  }

  // Which argument the last k or l under a plus that gets one is given.
  function Argument(text: string, x: Mode, n: nat): (i: Option<nat>)
    ensures i.Some? ==> i.value < n
    decreases |text|
  {
    if text == "" then None
    else if Last(text) == Letter(x) && Adding(Rest(text)) && Asked(Rest(text)) < n then Some(Asked(Rest(text)))
    else Argument(Rest(text), x, n)
  }

  function Start(lock: Lock, params: seq<string>): Parser {
    Parser(true, false, lock, params)
  }

  function AtMost(a: nat, n: nat): (m: nat)
    ensures m <= n
  {
    if a <= n then a else n
  }

  // One more character.
  lemma StepsLast(p: Parser, text: string)
    requires text != ""
    ensures Steps(p, text) == Step(Steps(p, Rest(text)), Last(text))
  {
    var q, last := Steps(p, Rest(text)), [Last(text)];
    assert text == Rest(text) + last;
    StepsAppend(p, Rest(text), last);
    assert last[1..] == "" && Steps(Step(q, last[0]), "") == Step(q, last[0]);
  }

  lemma {:induction false} LookupIs(c: char, k: nat)
    requires k <= |TABLE|
    ensures var x := Lookup(c, k); x.Some? ==> Letter(x.value) == c && x.value != K && x.value != L
    decreases |TABLE| - k
  {
    if k < |TABLE| {
      LookupIs(c, k + 1);
    }
  }

  lemma StepParser(p: Parser, c: char)
    ensures var q := Step(p, c);
            && q.on == (if c == '+' || (c == '=' && p.reset) then true else if c == '-' then false else p.on)
            && q.reset == (p.reset || c == '=')
            && q.params == if (c == 'k' || c == 'l') && p.on && p.params != [] then p.params[1..] else p.params
  {
  }

  // The sign, whether there was an =, and the arguments left.
  lemma {:induction false} ParserIs(lock: Lock, params: seq<string>, text: string)
    ensures var p := Steps(Start(lock, params), text);
            && p.on == Adding(text) && p.reset == ('=' in text)
            && p.params == params[AtMost(Asked(text), |params|)..]
    decreases |text|
  {
    if text != "" {
      var p := Steps(Start(lock, params), Rest(text));
      ParserIs(lock, params, Rest(text));
      StepsLast(Start(lock, params), text);
      StepParser(p, Last(text));
      assert text == Rest(text) + [Last(text)];
    }
  }

  lemma ForcedFlag(m: Mask, plus: bool, y: Mode, x: Mode, on: bool)
    ensures FlagOf(on, x) in Forced(m, plus, y) <==> if x == y then on == plus else FlagOf(on, x) in m
  {
  }

  // The mode a letter of the table stands for.
  lemma LookupIff(c: char, x: Mode)
    ensures Lookup(c, 0) == Some(x) <==> c == Letter(x) && x != K && x != L
  {
    LookupIs(c, 0);
    if c == Letter(x) && x != K && x != L {
      LookupFinds(x);
    }
  }

  predicate Sign(c: char) {
    c == '=' || c == '+' || c == '-'
  }

  // The mode a character stands for.
  function ModeOf(c: char): Option<Mode> {
    if c == 'k' then Some(K) else if c == 'l' then Some(L) else Lookup(c, 0)
  }

  lemma ModeIff(c: char, x: Mode)
    ensures ModeOf(c) == Some(x) <==> c == Letter(x)
  {
    LookupIff(c, x);
  }

  // Whether it is a k or l under a plus without an argument left.
  predicate Starved(p: Parser, c: char) {
    (c == 'k' || c == 'l') && p.on && p.params == []
  }

  lemma StepMask(p: Parser, c: char)
    ensures var m := Step(p, c).lock.mlock;
            if c == '=' && !p.reset then m == {}
            else if Sign(c) || Starved(p, c) then m == p.lock.mlock
            else m == match ModeOf(c) case Some(y) => Forced(p.lock.mlock, p.on, y) case None => p.lock.mlock
  {
  }

  // What one character does to the flags of x.
  lemma StepFlags(p: Parser, c: char, x: Mode, on: bool)
    ensures (FlagOf(on, x) in Step(p, c).lock.mlock)
            == if c == Letter(x) && !Starved(p, c) then on == p.on
               else if c == '=' && !p.reset then false
               else FlagOf(on, x) in p.lock.mlock
  {
    StepMask(p, c);
    ModeIff(c, x);
    if ModeOf(c).Some? {
      ForcedFlag(p.lock.mlock, p.on, ModeOf(c).value, x, on);
    }
  }

  /** For every text and every mode: the lock has the mode on or off exactly if its last mention locks it so, or if it
      is not mentioned and was locked so before. */
  lemma {:induction false} LastMentionDecides(lock: Lock, text: string, params: seq<string>, x: Mode, on: bool)
    ensures FlagOf(on, x) in Set(lock, text, params).mlock
       <==> match Mention(text, x, |params|)
            case Unmentioned => FlagOf(on, x) in lock.mlock
            case Cleared => false
            case Locked(plus) => plus == on
    decreases |text|
  {
    if text != "" {
      LastMentionDecides(lock, Rest(text), params, x, on);
      ParserIs(lock, params, Rest(text));
      StepsLast(Start(lock, params), text);
      StepFlags(Steps(Start(lock, params), Rest(text)), Last(text), x, on);
    }
  }

  lemma StepArguments(p: Parser, c: char)
    ensures var q := Step(p, c).lock;
            && q.key == (if c == 'k' && p.on && p.params != [] then KeyOf(p.params[0]) else p.lock.key)
            && q.limit == if c == 'l' && p.on && p.params != [] then Atoi(p.params[0]) else p.lock.limit
  {
  }

  /** The key is the argument of the last k under a plus that is given one, cut to 21 characters, and the limit the
      number of that of the last such l; without one they stay. */
  lemma {:induction false} LastArgumentDecides(lock: Lock, text: string, params: seq<string>)
    ensures var after, k, l := Set(lock, text, params), Argument(text, K, |params|), Argument(text, L, |params|);
            && after.key == (if k.Some? then KeyOf(params[k.value]) else lock.key)
            && after.limit == if l.Some? then Atoi(params[l.value]) else lock.limit
    decreases |text|
  {
    if text != "" {
      LastArgumentDecides(lock, Rest(text), params);
      ParserIs(lock, params, Rest(text));
      StepsLast(Start(lock, params), text);
      StepArguments(Steps(Start(lock, params), Rest(text)), Last(text));
    }
  }

  /** Whatever the text and its arguments, a minus and a mode's letter at its end lock the mode off. */
  lemma MinusAtEnd(lock: Lock, text: string, params: seq<string>, x: Mode)
    ensures var m := Set(lock, text + "-" + [Letter(x)], params).mlock;
            Minus(x) in m && Plus(x) !in m
  {
    var t := text + "-" + [Letter(x)];
    assert Rest(t) == text + "-" && Last(Rest(t)) == '-';
    LastMentionDecides(lock, t, params, x, true);
    LastMentionDecides(lock, t, params, x, false);
  }
}
