/** clone.c: where AddCrule puts a clone rule; and db.c: the trigger database, which writes the rules line by line and
    reads them back with AddCrule. */
module TriggerFile {
  import opened Text
  import opened ParseArgs
  import opened NewsFile
  import L = ListMacros

  const MASKLEN := HOSTLEN + USERLEN + 2

  datatype Rule = Rule(mask: string, trigger: int, utrigger: int, flags: int,
                       killMsg: Option<string>, warnMsg: Option<string>)

  // ---- AddCrule

  /** The place of a new rule among `len`: -2 is the end, less than 2 the head, else n counting from 1, or the end. */
  function Position(len: nat, n: int): (p: nat)
    ensures p <= len
  {
    if len == 0 then 0
    else if n == -2 then len
    else if n < 2 then 0
    else if n - 1 <= len then n - 1
    else len
  }

  // ---- writing

  function TriggerWords(r: Rule): seq<string> {
    ["Trigger", r.mask, PrintInt(r.trigger), PrintInt(r.utrigger)]
  }

  function MessageLine(command: string, text: Option<string>): string {
    match text
    case None => ""
    case Some(t) => command + " " + t + "\n"
  }

  function WriteRule(r: Rule): string {
    Words(TriggerWords(r)) + PrintInt(r.flags) + "\n"
    + MessageLine("Killmsg", r.killMsg) + MessageLine("Warnmsg", r.warnMsg)
  }

  // saveTriggerData
  function SaveTriggers(rules: seq<Rule>): string {
    if rules == [] then "done\n" else WriteRule(rules[0]) + SaveTriggers(rules[1..])
  }

  // ---- reading

  // One turn of readTriggerData's loop; `current` says that a rule has been read, the last one listed. Crash covers
  // the end of the file before "done" and the NULL arguments of strcmp, strncpy and atoi.
  datatype Turn = Crash | Finished | Go(rules: seq<Rule>, current: bool, rest: string)

  function CutMask(s: string): string {
    if |s| < MASKLEN then s else s[..MASKLEN - 1]
  }

  function TriggerFrom(w: seq<Option<string>>): Option<Rule>
    requires |w| == 4
  {
    if None in w then None
    else Some(Rule(CutMask(w[0].value), Atoi(w[1].value), Atoi(w[2].value), Atoi(w[3].value), None, None))
  }

  function Noted(rules: seq<Rule>, current: bool, text: Option<string>, kill: bool): seq<Rule> {
    if !current || text.None? || rules == [] then rules
    else
      var r := rules[|rules| - 1];
      rules[|rules| - 1 := if kill then r.(killMsg := text) else r.(warnMsg := text)]
  }

  function ReadTurn(file: string, rules: seq<Rule>, current: bool): (t: Turn)
    ensures t.Go? ==> |t.rest| < |file|
  {
    match Sfgets(file, 2048)
    case Eof => Crash
    case Line(text, rest) => CommandTurn(CommandOf(text), rest, rules, current)
  }

  // What a line says; Incomplete is a line with a NULL argument.
  datatype Command = Incomplete | Trigger(rule: Rule) | Message(text: Option<string>, kill: bool) | Other

  function CommandOf(line: string): Command {
    var p := NextArg(InitText(line), ' ');
    if p.arg.None? then Incomplete
    else if p.arg.value == "Trigger" then
      (match TriggerFrom(TakeArgs(p.rest, 4).args)
       case None => Incomplete
       case Some(r) => Trigger(r))
    else if p.arg.value == "Killmsg" then Message(AllArgs(p.rest, ' ').arg, true)
    else if p.arg.value == "Warnmsg" then Message(AllArgs(p.rest, ' ').arg, false)
    else Other
  }

  function CommandTurn(command: Command, rest: string, rules: seq<Rule>, current: bool): (t: Turn)
    ensures t.Go? ==> t.rest == rest
  {
    match command
    case Incomplete => Crash
    case Trigger(r) => Go(rules + [r], true, rest)
    case Message(text, kill) => Go(Noted(rules, current, text, kill), current, rest)
    case Other => Finished
  }

  datatype Reload = Down | Up(rules: seq<Rule>)

  // readTriggerData; a line it does not know ends the load as "done" does.
  function ReadTriggers(file: string, rules: seq<Rule>, current: bool): Reload
    decreases |file|
  {
    match ReadTurn(file, rules, current)
    case Crash => Down
    case Finished => Up(rules)
    case Go(rules', current', rest) => ReadTriggers(rest, rules', current')
  }

  // ---- the round trip

  predicate MessageFits(text: Option<string>) {
    text.Some? ==> Without(text.value, '\n') && |text.value| <= 2038
  }

  // A rule whose lines can be read back: a one-word mask, all within the buffers.
  predicate Writable(r: Rule) {
    && r.mask != "" && Without(r.mask, ' ') && Without(r.mask, '\n') && |r.mask| < MASKLEN
    && |Words(TriggerWords(r)) + PrintInt(r.flags)| <= 2046
    && MessageFits(r.killMsg) && MessageFits(r.warnMsg)
  }

  // What a message comes back as.
  function Reread(text: Option<string>): Option<string> {
    if text.None? then None else AllArgs(text, ' ').arg
  }

  function Reread1(r: Rule): Rule {
    r.(killMsg := Reread(r.killMsg), warnMsg := Reread(r.warnMsg))
  }

  function RereadAll(rules: seq<Rule>): seq<Rule> {
    if rules == [] then [] else [Reread1(rules[0])] + RereadAll(rules[1..])
  }

  lemma TriggerTurn(r: Rule, rest: string, rules: seq<Rule>, current: bool)
    requires Writable(r)
    ensures ReadTurn(Words(TriggerWords(r)) + PrintInt(r.flags) + "\n" + rest, rules, current)
         == Go(rules + [r.(killMsg := None, warnMsg := None)], true, rest)
  {
    PrintedInt(r.trigger);
    PrintedInt(r.utrigger);
    PrintedInt(r.flags);
    var w, tail := TriggerWords(r), PrintInt(r.flags);
    var line := Words(w) + tail;
    assert AreWords(w);
    WordsWithoutNewline(w);
    SfgetsLine(line, rest, 2048);
    TriggerArgs(r);
  }

  // The tokens of words followed by a last one without a space after it.
  lemma {:induction false} TakeWordsAndLast(words: seq<string>, last: string)
    requires AreWords(words) && last != "" && Without(last, ' ')
    ensures TakeArgs(Some(Words(words) + last), |words| + 1).args == Somes(words) + [Some(last)]
  {
    if words == [] {
      assert Words(words) + last == last;
      NextArgOfPrinted(last, ' ', "");
    } else {
      assert Words(words) + last == words[0] + [' '] + (Words(words[1..]) + last);
      NextArgOfPrinted(words[0], ' ', Words(words[1..]) + last);
      TakeWordsAndLast(words[1..], last);
      assert Somes(words) == [Some(words[0])] + Somes(words[1..]);
    }
  }

  lemma TriggerArgs(r: Rule)
    requires Writable(r) && AreWords(TriggerWords(r))
    ensures var p := NextArg(InitText(Words(TriggerWords(r)) + PrintInt(r.flags)), ' ');
            && p.arg == Some("Trigger")
            && TriggerFrom(TakeArgs(p.rest, 4).args) == Some(r.(killMsg := None, warnMsg := None))
  {
    PrintedInt(r.trigger);
    PrintedInt(r.utrigger);
    PrintedInt(r.flags);
    var three, tail := [r.mask, PrintInt(r.trigger), PrintInt(r.utrigger)], PrintInt(r.flags);
    assert TriggerWords(r)[1..] == three;
    assert Words(TriggerWords(r)) + tail == "Trigger" + [' '] + (Words(three) + tail);
    NextArgOfPrinted("Trigger", ' ', Words(three) + tail);
    TakeWordsAndLast(three, tail);
    TriggerFields(r, Somes(three) + [Some(tail)]);
  }

  lemma TriggerFields(r: Rule, w: seq<Option<string>>)
    requires |r.mask| < MASKLEN && |w| == 4
    requires w[0] == Some(r.mask) && w[1] == Some(PrintInt(r.trigger))
    requires w[2] == Some(PrintInt(r.utrigger)) && w[3] == Some(PrintInt(r.flags))
    ensures TriggerFrom(w) == Some(r.(killMsg := None, warnMsg := None))
  {
    PrintedInt(r.trigger);
    PrintedInt(r.utrigger);
    PrintedInt(r.flags);
    assert None !in w;
  }

  lemma MessageCommand(command: string, text: string, kill: bool)
    requires command == if kill then "Killmsg" else "Warnmsg"
    ensures CommandOf(command + " " + text) == Message(AllArgs(Some(text), ' ').arg, kill)
  {
    assert command + " " + text == command + [' '] + text;
    assert command != "Trigger" && (command == "Killmsg" <==> kill);
    NextArgOfPrinted(command, ' ', text);
  }

  lemma MessageTurn(command: string, kill: bool, text: string, rest: string, rules: seq<Rule>)
    requires MessageFits(Some(text)) && rules != [] && command == if kill then "Killmsg" else "Warnmsg"
    ensures ReadTurn(MessageLine(command, Some(text)) + rest, rules, true)
         == Go(Noted(rules, true, AllArgs(Some(text), ' ').arg, kill), true, rest)
  {
    var line := command + " " + text;
    Assoc(line, "\n", rest);
    assert Without(command, '\n') && |command| == 7;
    SfgetsLine(line, rest, 2048);
    MessageCommand(command, text, kill);
  }

  lemma RuleText(r: Rule, rest: string)
    ensures WriteRule(r) + rest
         == Words(TriggerWords(r)) + PrintInt(r.flags) + "\n"
            + (MessageLine("Killmsg", r.killMsg) + (MessageLine("Warnmsg", r.warnMsg) + rest))
  {
    var line := Words(TriggerWords(r)) + PrintInt(r.flags) + "\n";
    var kill, warn := MessageLine("Killmsg", r.killMsg), MessageLine("Warnmsg", r.warnMsg);
    Assoc(line + kill, warn, rest);
    Assoc(line, kill, warn + rest);
  }

  // What one rule's lines add to the list.
  lemma ReadRule(r: Rule, rest: string, rules: seq<Rule>, current: bool)
    requires Writable(r)
    ensures ReadTriggers(WriteRule(r) + rest, rules, current) == ReadTriggers(rest, rules + [Reread1(r)], true)
  {
    var warn := MessageLine("Warnmsg", r.warnMsg) + rest;
    var kill := MessageLine("Killmsg", r.killMsg) + warn;
    var bare := r.(killMsg := None, warnMsg := None);
    RuleText(r, rest);
    TriggerTurn(r, kill, rules, current);
    ReadOn(Words(TriggerWords(r)) + PrintInt(r.flags) + "\n" + kill, rules, current, rules + [bare], true, kill);
    ReadMessage(true, r.killMsg, warn, rules, bare);
    ReadMessage(false, r.warnMsg, rest, rules, bare.(killMsg := Reread(r.killMsg)));
  }

  lemma ReadOn(file: string, rules: seq<Rule>, current: bool, rules': seq<Rule>, current': bool, rest: string)
    requires ReadTurn(file, rules, current) == Go(rules', current', rest)
    ensures ReadTriggers(file, rules, current) == ReadTriggers(rest, rules', current')
  {
  }

  lemma ReadMessage(kill: bool, text: Option<string>, rest: string, rules: seq<Rule>, r: Rule)
    requires MessageFits(text) && (if kill then r.killMsg else r.warnMsg) == None
    ensures ReadTriggers(MessageLine(if kill then "Killmsg" else "Warnmsg", text) + rest, rules + [r], true)
         == ReadTriggers(rest,
                         rules + [if kill then r.(killMsg := Reread(text)) else r.(warnMsg := Reread(text))], true)
  {
    if text.None? {
      assert "" + rest == rest;
      assert (if kill then r.(killMsg := None) else r.(warnMsg := None)) == r;
    } else {
      MessageTurn(if kill then "Killmsg" else "Warnmsg", kill, text.value, rest, rules + [r]);
      NotedLast(rules, r, Reread(text), kill);
    }
  }

  lemma NotedLast(rules: seq<Rule>, r: Rule, text: Option<string>, kill: bool)
    requires (if kill then r.killMsg else r.warnMsg) == None
    ensures Noted(rules + [r], true, text, kill)
         == rules + [if kill then r.(killMsg := text) else r.(warnMsg := text)]
  {
  }

  lemma ReadTriggersDone(rules: seq<Rule>, current: bool)
    ensures ReadTriggers("done\n", rules, current) == Up(rules)
  {
    assert "done\n" == "done" + "\n" + "";
    SfgetsLine("done", "", 2048);
    NextArgOfPrinted("done", ' ', "");
  }

  /** All rules come back, in order, behind those that were there. */
  lemma {:induction false} TriggersReload(rules: seq<Rule>, before: seq<Rule>, current: bool)
    requires forall r :: r in rules ==> Writable(r)
    ensures ReadTriggers(SaveTriggers(rules), before, current) == Up(before + RereadAll(rules))
    decreases |rules|
  {
    if rules == [] {
      ReadTriggersDone(before, current);
      assert before + [] == before;
    } else {
      ReadRule(rules[0], SaveTriggers(rules[1..]), before, current);
      TriggersReload(rules[1..], before + [Reread1(rules[0])], true);
      Assoc(before, [Reread1(rules[0])], RereadAll(rules[1..]));
    }
  }

  predicate MessageTrimmed(text: Option<string>) {
    text.Some? ==> Trimmed(text.value, ' ')
  }

  lemma RereadUnchanged(r: Rule)
    ensures Reread1(r) == r <==> MessageTrimmed(r.killMsg) && MessageTrimmed(r.warnMsg)
  {
    if r.killMsg.Some? {
      AllArgsUnchangedIff(r.killMsg.value, ' ');
    }
    if r.warnMsg.Some? {
      AllArgsUnchangedIff(r.warnMsg.value, ' ');
    }
  }

  lemma {:induction false} RereadAllUnchanged(rules: seq<Rule>)
    ensures RereadAll(rules) == rules
       <==> forall r :: r in rules ==> MessageTrimmed(r.killMsg) && MessageTrimmed(r.warnMsg)
  {
    if rules != [] {
      RereadUnchanged(rules[0]);
      RereadAllUnchanged(rules[1..]);
      assert rules == [rules[0]] + rules[1..];
      assert forall r :: r in rules <==> r == rules[0] || r in rules[1..];
      assert RereadAll(rules)[0] == Reread1(rules[0]) && RereadAll(rules)[1..] == RereadAll(rules[1..]);
    }
  }

  /** Saving and reloading gives back the rules, in order, exactly if no message has blanks at an end, starts with a
      colon or is empty. */
  lemma TriggersReloadIff(rules: seq<Rule>)
    requires forall r :: r in rules ==> Writable(r)
    ensures ReadTriggers(SaveTriggers(rules), [], false) == Up(rules)
       <==> forall r :: r in rules ==> MessageTrimmed(r.killMsg) && MessageTrimmed(r.warnMsg)
  {
    TriggersReload(rules, [], false);
    RereadAllUnchanged(rules);
    assert [] + RereadAll(rules) == RereadAll(rules);
  }

  /** A rule whose message starts with a colon loses it. */
  lemma ColonExample(r: Rule)
    requires r == Rule("*@host", 8, 4, 0, Some(":no clones"), None)
    ensures ReadTriggers(SaveTriggers([r]), [], false) != Up([r])
  {
    FourWords("Trigger", r.mask, PrintInt(r.trigger), PrintInt(r.utrigger));
    assert Writable(r) && r in [r] && !MessageTrimmed(r.killMsg);
    TriggersReloadIff([r]);
  }

  // ---- the list at first_crule

  class CloneRule {
    var rule: Rule
    var next: CloneRule?

    constructor (rule: Rule)
      ensures this.rule == rule && next == null
    {
      this.rule, next := rule, null;
    }
  }

  // The record at place i, NULL behind the last.
  function At(s: seq<CloneRule>, i: nat): CloneRule? {
    if i < |s| then s[i] else null
  }

  ghost predicate Chained(first: CloneRule?, s: seq<CloneRule>)
    reads s
  {
    && L.Distinct(s)
    && first == At(s, 0)
    && forall i {:trigger s[i].next} :: 0 <= i < |s| ==> s[i].next == At(s, i + 1)
  }

  method InsertBehind(tmp: CloneRule, rule: CloneRule, ghost first: CloneRule?, ghost s: seq<CloneRule>, ghost i: nat,
                      ghost t: seq<CloneRule>)
    requires Chained(first, s) && rule !in s && i < |s| && s[i] == tmp
    requires L.PutsIn(s, i + 1, rule, t) && L.Distinct(t)
    modifies tmp`next, rule`next
    ensures Chained(first, t)
  {
    L.Once(s, i);
    rule.next := tmp.next;
    tmp.next := rule;
    forall k | 0 <= k < |t|
      ensures t[k].next == At(t, k + 1)
    {
    }
  }

  // The walk of AddCrule to the record that the new one is put behind.
  method FindPlace(first: CloneRule, n: int, ghost s: seq<CloneRule>) returns (tmp: CloneRule, ghost ct: nat)
    requires Chained(first, s) && (n == -2 || n >= 2)
    ensures 1 <= ct <= |s| && tmp == s[ct - 1] && ct == Position(|s|, n)
  {
    tmp, ct := first, 1;
    var count := 1;
    while tmp.next != null
      invariant 1 <= ct <= |s| && tmp == s[ct - 1] && count == ct && (n != -2 ==> ct <= n - 1)
      decreases |s| - ct
    {
      if (count + 1 >= n && n != -2) || tmp.next == null {
        break;
      }
      tmp := tmp.next;
      count, ct := count + 1, ct + 1;
    }
  }

  ghost function RulesOf(s: seq<CloneRule>): (rules: seq<Rule>)
    reads s
    ensures |rules| == |s| && forall i :: 0 <= i < |s| ==> rules[i] == s[i].rule
  {
    seq(|s|, i requires 0 <= i < |s| reads s => s[i].rule)
  }

  lemma RulesAppended(s: seq<CloneRule>, was: seq<Rule>, rule: CloneRule)
    requires |s| == |was| && forall i :: 0 <= i < |s| ==> was[i] == s[i].rule
    ensures RulesOf(s + [rule]) == was + [rule.rule]
  {
  }

  class Rules {
    var firstCrule: CloneRule?
    ghost var list: seq<CloneRule>

    ghost predicate Valid()
      reads this, list
    {
      Chained(firstCrule, list)
    }

    constructor ()
      ensures Valid() && list == []
    {
      firstCrule, list := null, [];
    }

    method IsListed(rule: CloneRule) returns (listed: bool)
      requires Valid()
      ensures listed <==> rule in list
    {
      var tmp := firstCrule;
      ghost var i := 0;
      while tmp != null
        invariant i <= |list| && tmp == At(list, i) && rule !in list[..i]
        decreases |list| - i
      {
        if rule == tmp {
          return true;
        }
        tmp := tmp.next;
        i := i + 1;
      }
      return false;
    }

    /** AddCrule: a record that is listed already is left where it is, whatever n. */
    method AddCrule(rule: CloneRule, n: int)
      requires Valid()
      modifies this, list`next, rule`next
      ensures Valid()
      ensures list == if rule in old(list) then old(list) else L.InsertAt(old(list), Position(|old(list)|, n), rule)
    {
      var listed := IsListed(rule);
      if listed {
        return;
      }
      ghost var t := L.InsertAt(list, Position(|list|, n), rule);
      L.PutsInInsertAt(list, Position(|list|, n), rule);
      if (n != -2 && n < 2) || firstCrule == null {
        rule.next := firstCrule;
        firstCrule := rule;
      } else {
        var tmp;
        ghost var ct;
        tmp, ct := FindPlace(firstCrule, n, list);
        InsertBehind(tmp, rule, firstCrule, list, ct - 1, t);
      }
      list := t;
    }

    // The rule that the messages read next belong to is the last one listed.
    ghost predicate IsLatest(rule: CloneRule?)
      reads this
    {
      rule != null ==> list != [] && rule == list[|list| - 1]
    }

    /** The branch of readTriggerData for a rule. */
    method AddRead(r: Rule) returns (rule: CloneRule)
      requires Valid()
      modifies this, list
      ensures Valid() && fresh(rule) && list == old(list) + [rule]
      ensures RulesOf(list) == old(RulesOf(list)) + [r]
    {
      rule := new CloneRule(r);
      ghost var s, was := list, RulesOf(list);
      AddCrule(rule, -2);
      assert list == s + [rule];
      RulesAppended(s, was, rule);
    }

    /** The branches for its messages. */
    method Note(rule: CloneRule?, text: Option<string>, kill: bool)
      requires Valid() && IsLatest(rule)
      modifies list
      ensures Valid() && RulesOf(list) == Noted(old(RulesOf(list)), rule != null, text, kill)
    {
      if rule != null && text.Some? {
        if kill {
          rule.rule := rule.rule.(killMsg := text);
        } else {
          rule.rule := rule.rule.(warnMsg := text);
        }
      }
    }

    // The state after a turn.
    ghost predicate Reached(t: Turn, outcome: Outcome, latest: CloneRule?)
      reads this, list
    {
      match t
      case Crash => outcome == Aborted
      case Finished => outcome == Ended
      case Go(rules, current, _) => outcome == More && RulesOf(list) == rules && (latest != null <==> current)
    }

    method DoCommand(command: Command, rule: CloneRule?, ghost rest: string)
      returns (outcome: Outcome, latest: CloneRule?)
      requires Valid() && IsLatest(rule)
      modifies this, list
      ensures Valid() && IsLatest(latest) && (outcome == Ended ==> RulesOf(list) == old(RulesOf(list)))
      ensures forall i :: 0 <= i < |list| ==> list[i] in old(list) || fresh(list[i])
      ensures Reached(CommandTurn(command, rest, old(RulesOf(list)), rule != null), outcome, latest)
    {
      outcome, latest := More, rule;
      match command
      case Incomplete => outcome := Aborted;
      case Trigger(r) => latest := AddRead(r);
      case Message(text, kill) => Note(rule, text, kill);
      case Other => outcome := Ended;
    }

    // One turn of the loop of readTriggerData.
    method ReadLineOf(fp: File, rule: CloneRule?) returns (outcome: Outcome, latest: CloneRule?)
      requires Valid() && IsLatest(rule) && Without(fp.text, '\0')
      modifies this, list, fp
      ensures Valid() && IsLatest(latest) && (outcome == Ended ==> RulesOf(list) == old(RulesOf(list)))
      ensures forall i :: 0 <= i < |list| ==> list[i] in old(list) || fresh(list[i])
      ensures var t := ReadTurn(old(fp.text), old(RulesOf(list)), rule != null);
              Reached(t, outcome, latest) && (t.Go? ==> fp.text == t.rest && Without(fp.text, '\0'))
    {
      var dbLine := fp.Gets(2048);
      if dbLine.None? {
        return Aborted, rule;
      }
      var command := ParseLine(dbLine.value);
      outcome, latest := DoCommand(command, rule, fp.text);
    }

    /** readTriggerData; `ok` is false where services go down. */
    method ReadTriggerData(fp: File) returns (ok: bool)
      requires Valid() && Without(fp.text, '\0')
      modifies this, list, fp
      ensures Valid()
      ensures match ReadTriggers(old(fp.text), old(RulesOf(list)), false)
              case Down => !ok
              case Up(rules) => ok && RulesOf(list) == rules
    {
      ghost var whole := ReadTriggers(fp.text, RulesOf(list), false);
      var rule: CloneRule? := null;
      while true
        invariant Valid() && IsLatest(rule) && Without(fp.text, '\0')
        invariant forall i :: 0 <= i < |list| ==> list[i] in old(list) || fresh(list[i])
        invariant whole == ReadTriggers(fp.text, RulesOf(list), rule != null)
        decreases |fp.text|
      {
        var outcome;
        outcome, rule := ReadLineOf(fp, rule);
        if outcome.Aborted? {
          return false;
        }
        if outcome.Ended? {
          return true;
        }
      }
    }

    // The loop of saveTriggerData.
    method SaveEach(fp: File, ghost rules: seq<Rule>)
      requires Valid() && rules == RulesOf(list)
      modifies fp
      ensures Written(old(fp.text), rules, 0, fp.text, |rules|)
    {
      ghost var before, i := fp.text, 0;
      var rule := firstCrule;
      while rule != null
        invariant i <= |list| && rule == At(list, i) && Valid() && rules == RulesOf(list)
        invariant Written(before, rules, 0, fp.text, i)
        decreases |list| - i
      {
        SaveNext(fp, rule.rule, before, rules, i);
        rule := rule.next;
        i := i + 1;
      }
    }

    /** saveTriggerData. */
    method SaveTriggerData() returns (fp: File)
      requires Valid()
      ensures fresh(fp) && fp.text == SaveTriggers(RulesOf(list))
    {
      fp := new File("");
      ghost var rules := RulesOf(list);
      SaveEach(fp, rules);
      assert rules[0..] == rules && rules[|rules|..] == [];
      fp.Print("done\n");
    }
  }

  // ---- db.c

  lemma SaveTriggersFrom(before: string, rules: seq<Rule>, i: nat)
    requires i < |rules|
    ensures before + SaveTriggers(rules[i..]) == before + WriteRule(rules[i]) + SaveTriggers(rules[i + 1..])
  {
    assert rules[i..][1..] == rules[i + 1..];
  }

  method SaveRule(fp: File, rule: Rule)
    modifies fp
    ensures fp.text == old(fp.text) + WriteRule(rule)
  {
    ghost var was := fp.text;
    var line := Words(TriggerWords(rule)) + PrintInt(rule.flags) + "\n";
    fp.Print(line);
    if rule.killMsg.Some? {
      fp.Print("Killmsg " + rule.killMsg.value + "\n");
    }
    assert fp.text == was + (line + MessageLine("Killmsg", rule.killMsg));
    if rule.warnMsg.Some? {
      fp.Print("Warnmsg " + rule.warnMsg.value + "\n");
    }
    assert fp.text == was + (line + MessageLine("Killmsg", rule.killMsg) + MessageLine("Warnmsg", rule.warnMsg));
  }

  // What stands in the file when the rules from i to j have been written to it.
  ghost predicate Written(before: string, rules: seq<Rule>, i: nat, after: string, j: nat)
    requires i <= |rules| && j <= |rules|
  {
    after + SaveTriggers(rules[j..]) == before + SaveTriggers(rules[i..])
  }

  method SaveNext(fp: File, rule: Rule, ghost before: string, ghost rules: seq<Rule>, ghost i: nat)
    requires i < |rules| && rule == rules[i] && Written(before, rules, 0, fp.text, i)
    modifies fp
    ensures Written(before, rules, 0, fp.text, i + 1)
  {
    SaveTriggersFrom(fp.text, rules, i);
    SaveRule(fp, rule);
  }

  // What a turn of readTriggerData's loop comes to.
  datatype Outcome = Aborted | Ended | More

  // The command of a line and its arguments.
  method ParseLine(line: string) returns (command: Command)
    requires Without(line, '\0')
    ensures command == CommandOf(line)
  {
    var state := ParserFor(line, ' ');
    var word := state.GetToken();
    if word.None? {
      return Incomplete;
    }
    if word.value == "Trigger" {
      var words := TakeTokens(state, 4);
      var rule := TriggerFrom(words);
      return if rule.None? then Incomplete else Trigger(rule.value);
    } else if word.value == "Killmsg" {
      var text := state.GetAllText();
      return Message(text, true);
    } else if word.value == "Warnmsg" {
      var text := state.GetAllText();
      return Message(text, false);
    } else {
      return Other;
    }
  }
}
