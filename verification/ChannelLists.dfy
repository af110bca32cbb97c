/** chanserv.c: what a JOIN, PART or KICK of a list of channels comes to, told from the list cut at its commas. */
module ChannelLists {
  import opened Text
  import opened Membership

  // ---- what a list of names comes to

  // A list cut at its commas.
  function Fields(text: string): (fields: seq<string>)
    ensures fields != []
  {
    if text == "" then [""]
    else
      var rest := Fields(text[1..]);
      if text[0] == ',' then [""] + rest else [[text[0]] + rest[0]] + rest[1..]
  }

  lemma {:induction false} FieldsFirst(text: string)
    ensures var n := UpToComma(text);
            Fields(text) == [text[..n]] + if n == |text| then [] else Fields(text[n + 1..])
  {
    if text != "" && text[0] != ',' {
      var n := UpToComma(text[1..]);
      FieldsFirst(text[1..]);
      assert [text[0]] + text[1..][..n] == text[..n + 1];
      assert n < |text[1..]| ==> text[1..][n + 1..] == text[n + 2..];
    }
  }

  // A name that is too long is read as an empty one; the last of a list is not read then, or if it is empty.
  predicate NotRead(fields: seq<string>) {
    |fields| == 1 && (fields[0] == "" || |fields[0]| >= CHANLEN)
  }

  function ReadAs(field: string): string {
    if |field| >= CHANLEN then "" else field
  }

  predicate Starts(name: string, c: char) {
    name != "" && name[0] == c
  }

  // Nobody but u is on c.
  ghost predicate Alone(s: State, u: nat, c: string) {
    forall v :: v != u ==> On(s, c, v) == 0
  }

  // The op flags with which u ends up on d (None if not on it), when the name with k names left is answered by says(k).
  ghost function JoinedOp(fields: seq<string>, says: nat -> Answer, s: State, u: nat, d: string, op: Option<nat>)
    : Option<nat>
  {
    if fields == [] || NotRead(fields) then op
    else
      var name, answer, rest := ReadAs(fields[0]), says(|fields|), fields[1..];
      if Starts(name, '0') then JoinedOp(rest, says, s, u, d, None)
      else if Starts(name, '+') then JoinedOp(rest, says, s, u, d, op)
      else if answer.Akick? || answer.BanKick? || (answer.Keyed? && Alone(s, u, Lower(name))) then op
      else
        var flags := if answer.Stay? then answer.flags else 0;
        JoinedOp(rest, says, s, u, d, if Lower(name) == d then Some(flags) else op)
  }

  // A name kept for its key parts itself again.
  predicate KeysPart(fields: seq<string>, says: nat -> Answer) {
    forall i :: 0 <= i < |fields| && says(|fields| - i).Keyed? ==> PartsItself(ReadAs(fields[i]))
  }

  // Only u's own memberships differ.
  ghost predicate SameOthers(s: State, t: State, u: nat) {
    forall d, v :: v != u ==> Op(t, d, v) == Op(s, d, v)
  }

  lemma {:induction false} FirstIsOn(members: seq<Member>)
    requires members != []
    ensures MemberCount(members, members[0].person) >= 1
  {
  }

  lemma AloneSame(s: State, t: State, u: nat, c: string)
    requires Valid(t) && SameOthers(s, t, u)
    ensures Alone(t, u, c) == Alone(s, u, c)
    ensures On(t, c, u) == 0 ==> (Members(t, c) == [] <==> Alone(s, u, c)) && (c in t.chans <==> !Alone(s, u, c))
  {
    forall v | v != u
      ensures On(t, c, v) == 0 <==> On(s, c, v) == 0
    {
      OpIsOn(s, c, v);
      OpIsOn(t, c, v);
      assert Op(t, c, v) == Op(s, c, v);
    }
    if Members(t, c) != [] {
      FirstIsOn(t.chans[c]);
      assert On(t, c, t.chans[c][0].person) >= 1;
    }
  }

  lemma DeletedOps(s: State, c: string, j: nat, d: string, v: nat)
    requires Valid(s) && c in s.chans && j < |s.chans[c]|
    ensures var u := s.chans[c][j].person; Op(Deleted(s, c, j), d, v) == if d == c && v == u then None else Op(s, d, v)
  {
    var u := s.chans[c][j].person;
    if v == u {
      DeletedIsValid(s, c, j);
      OpIsOn(Deleted(s, c, j), c, u);
    } else {
      OpInRemove(s.chans[c], j, v);
    }
  }

  lemma {:induction false} PartAllOps(s: State, u: nat, i: nat, d: string, v: nat)
    requires Valid(s) && u in s.users && i <= NICKCHANHASHSIZE && EmptyBelow(s.users[u], i)
    ensures Op(PartAll(s, u, i), d, v) == if v == u then None else Op(s, d, v)
    decreases NICKCHANHASHSIZE - i
  {
    if i == NICKCHANHASHSIZE {
      NoneCount(s.users[u], d);
      assert SlotCount(s.users[u], d) == On(s, d, u);
      OpIsOn(s, d, u);
    } else if s.users[u][i].None? {
      PartAllOps(s, u, i + 1, d, v);
    } else {
      var c := s.users[u][i].value;
      SlotHas(s.users[u], i, c);
      assert On(s, c, u) == 1;
      var j := FindMember(Members(s, c), u).value;
      DeletedIsValid(s, c, j);
      DeletedOps(s, c, j, d, v);
      var s' := Deleted(s, c, j);
      assert s'.users[u][i := None] == s'.users[u];
      assert s'.users[u := s'.users[u]] == s'.users && EmptySlot(s', u, i) == s';
      PartAllOps(s', u, i + 1, d, v);
    }
  }

  lemma {:induction false} OpInSet(members: seq<Member>, j: nat, op: nat, v: nat)
    requires j < |members| && FindMember(members, members[j].person) == Some(j)
    ensures OpIn(members[j := members[j].(op := op)], v)
         == if v == members[j].person then Some(op) else OpIn(members, v)
  {
    var x := members[j].(op := op);
    if j > 0 {
      assert members[j := x][1..] == members[1..][j - 1 := x];
      OpInSet(members[1..], j - 1, op, v);
    } else {
      assert members[0 := x][1..] == members[1..];
    }
  }

  // One name that u stays on, or is kicked from.
  lemma JoinOneOps(s: State, u: nat, name: string, answer: Answer, d: string, v: nat)
    requires Valid(s) && u in s.users && Fits(s, u, name, answer) && (answer.Keyed? ==> PartsItself(name))
    ensures var w := JoinOne(s, u, name, answer);
            && w.stop == Kicks(s, name, answer)
            && Op(w.s, d, v) == if !w.stop && d == Lower(name) && v == u
                                then Some(if answer.Stay? then answer.flags else 0) else Op(s, d, v)
  {
    if Kicks(s, name, answer) {
      JoinKicked(s, u, name, answer);
    } else if d == Lower(name) {
      var members, x := Members(s, d), Member(u, 0);
      var s1 := Added(s, d, u, 0, FreeSlot(s.users[u]));
      OpIsOn(s, d, u);
      OpInAppend(members, x, v);
      FindOnly(members, x);
      if answer.Stay? {
        assert (members + [x])[|members|].(op := answer.flags) == Member(u, answer.flags);
        OpInSet(members + [x], |members|, answer.flags, v);
      }
    }
  }

  // What one name that is read comes to.
  ghost predicate NameTaken(s0: State, s: State, w: Went, u: nat, name: string, answer: Answer) {
    && SameOthers(s0, w.s, u)
    && w.stop == (Joins(name) && (answer.Akick? || answer.BanKick? || (answer.Keyed? && Alone(s0, u, Lower(name)))))
    && forall d :: Op(w.s, d, u) == if Starts(name, '0') then None
                                    else if Joins(name) && !w.stop && d == Lower(name)
                                    then Some(if answer.Stay? then answer.flags else 0) else Op(s, d, u)
  }

  lemma JoinNameOps(s0: State, s: State, u: nat, name: string, answer: Answer)
    requires Valid(s) && u in s.users && |name| < CHANLEN && SameOthers(s0, s, u)
    requires Joins(name) ==> Fits(s, u, name, answer)
    requires answer.Keyed? ==> PartsItself(name)
    ensures var w := JoinName(s, u, name, answer); Valid(w.s) && u in w.s.users && NameTaken(s0, s, w, u, name, answer)
  {
    var w := JoinName(s, u, name, answer);
    JoinNameIsValid(s, u, name, answer);
    AloneSame(s0, s, u, Lower(name));
    forall d, v
      ensures Op(w.s, d, v) == if v == u && Starts(name, '0') then None
                               else if v == u && Joins(name) && !w.stop && d == Lower(name)
                               then Some(if answer.Stay? then answer.flags else 0) else Op(s, d, v)
    {
      if Starts(name, '0') {
        PartAllOps(s, u, 0, d, v);
      } else if !Starts(name, '+') {
        JoinOneOps(s, u, name, answer, d, v);
      }
    }
    assert Joins(name) ==> w.stop == Kicks(s, name, answer) by {
      if Joins(name) {
        JoinOneOps(s, u, name, answer, "", 0);
      }
    }
  }

  // From s to t, u's memberships have become what the list makes them, and nobody else's have changed since s0.
  ghost predicate JoinedAs(s0: State, s: State, t: State, u: nat, fields: seq<string>, says: nat -> Answer) {
    && SameOthers(s0, t, u)
    && forall d :: Op(t, d, u) == JoinedOp(fields, says, s0, u, d, Op(s, d, u))
  }

  lemma JoinedStep(s0: State, s: State, w: Went, t: State, u: nat, fields: seq<string>, says: nat -> Answer)
    requires fields != [] && !NotRead(fields) && NameTaken(s0, s, w, u, ReadAs(fields[0]), says(|fields|))
    requires if w.stop then t == w.s else JoinedAs(s0, w.s, t, u, fields[1..], says)
    ensures JoinedAs(s0, s, t, u, fields, says)
  {
    var name := ReadAs(fields[0]);
    assert Joins(name) <==> !Starts(name, '0') && !Starts(name, '+');
    forall d
      ensures Op(t, d, u) == JoinedOp(fields, says, s0, u, d, Op(s, d, u))
    {
      assert !w.stop ==> Op(t, d, u) == JoinedOp(fields[1..], says, s0, u, d, Op(w.s, d, u));
    }
  }

  // A name that is too long counts like an empty one in its place.
  lemma JoinedTooLong(s0: State, s: State, t: State, u: nat, fields: seq<string>, says: nat -> Answer)
    requires |fields| > 1 && |fields[0]| >= CHANLEN && JoinedAs(s0, s, t, u, [""] + fields[1..], says)
    ensures JoinedAs(s0, s, t, u, fields, says)
  {
    var alike := [""] + fields[1..];
    assert alike[1..] == fields[1..] && |alike| == |fields|;
    forall d
      ensures JoinedOp(fields, says, s0, u, d, Op(s, d, u)) == JoinedOp(alike, says, s0, u, d, Op(s, d, u))
    {
    }
  }

  lemma KeysPartTail(fields: seq<string>, says: nat -> Answer)
    requires fields != [] && KeysPart(fields, says)
    ensures KeysPart(fields[1..], says) && KeysPart([ReadAs(fields[0])] + fields[1..], says)
  {
    var rest, alike := fields[1..], [ReadAs(fields[0])] + fields[1..];
    forall i | 0 <= i < |rest| && says(|rest| - i).Keyed?
      ensures PartsItself(ReadAs(rest[i]))
    {
      assert rest[i] == fields[i + 1] && |fields| - (i + 1) == |rest| - i;
    }
    forall i | 0 <= i < |alike| && says(|alike| - i).Keyed?
      ensures PartsItself(ReadAs(alike[i]))
    {
      assert |alike| == |fields| && ReadAs(alike[i]) == ReadAs(fields[i]);
    }
  }

  /** What a JOIN of any list comes to: on each channel the user ends up as the names that are read make it, up to the
      first kick, with the op flags answered, and nobody else's membership changes. */
  lemma {:induction false} JoinTextOps(s0: State, s: State, u: nat, text: string, ask: (State, string) -> Answer,
                                       says: nat -> Answer)
    requires Valid(s) && u in s.users && JoinsFit(s, u, text, ask) && SameOthers(s0, s, u)
    requires forall t, x {:trigger ask(t, x)} :: ask(t, x) == says(|Fields(x)|)
    requires KeysPart(Fields(text), says)
    ensures JoinedAs(s0, s, JoinText(s, u, text, ask), u, Fields(text), says)
    decreases |text|, 1
  {
    if text != "" {
      var n, fields := UpToComma(text), Fields(text);
      FieldsFirst(text);
      KeysPartTail(fields, says);
      if n >= CHANLEN {
        if n < |text| {
          TooLongFields(text);
          JoinTextOps(s0, s, u, text[n..], ask, says);
          JoinedTooLong(s0, s, JoinText(s, u, text[n..], ask), u, fields, says);
        }
      } else {
        JoinFirst(s0, s, u, text, ask, says);
      }
    }
  }

  lemma TooLongFields(text: string)
    requires UpToComma(text) < |text|
    ensures var n := UpToComma(text); Fields(text[n..]) == [""] + Fields(text)[1..] && |Fields(text)| > 1
  {
    var n := UpToComma(text);
    FieldsFirst(text);
    CommaAt(text);
    assert text[n..][1..] == text[n + 1..];
  }

  lemma {:induction false} CommaAt(text: string)
    requires UpToComma(text) < |text|
    ensures text[UpToComma(text)] == ','
  {
    if text[0] != ',' {
      CommaAt(text[1..]);
    }
  }

  // The list after its first name.
  function Rest(text: string): string {
    var n := UpToComma(text);
    if n == |text| then "" else text[n + 1..]
  }

  lemma FirstOf(fields: seq<string>, first: string, rest: seq<string>)
    requires fields == [first] + rest
    ensures fields[0] == first && fields[1..] == rest
  {
  }

  lemma AfterIsRest(text: string, n: nat)
    requires text != "" && n == UpToComma(text) < CHANLEN
    ensures AfterName(text) == Rest(text)
  {
    assert n == |text| ==> text[n..] == "";
  }

  lemma RestIs(text: string)
    requires text != "" && UpToComma(text) < CHANLEN
    ensures AfterName(text) == Rest(text) && Fields(text)[0] == text[..UpToComma(text)] && !NotRead(Fields(text))
    ensures Fields(text)[1..] == if UpToComma(text) == |text| then [] else Fields(Rest(text))
  {
    var n, fields := UpToComma(text), Fields(text);
    AfterIsRest(text, n);
    FieldsFirst(text);
    if n == |text| {
      FirstOf(fields, text[..n], []);
    } else {
      FirstOf(fields, text[..n], Fields(text[n + 1..]));
    }
  }

  // The step for a list that starts with a name of proper length.
  lemma {:induction false} JoinFirst(s0: State, s: State, u: nat, text: string, ask: (State, string) -> Answer,
                                     says: nat -> Answer)
    requires Valid(s) && u in s.users && JoinsFit(s, u, text, ask) && SameOthers(s0, s, u)
    requires forall t, x {:trigger ask(t, x)} :: ask(t, x) == says(|Fields(x)|)
    requires KeysPart(Fields(text), says) && text != "" && UpToComma(text) < CHANLEN
    ensures JoinedAs(s0, s, JoinText(s, u, text, ask), u, Fields(text), says)
    decreases |text|, 0
  {
    var name, fields, answer := text[..UpToComma(text)], Fields(text), ask(s, text);
    RestIs(text);
    KeysPartTail(fields, says);
    assert says(|fields| - 0) == answer && ReadAs(fields[0]) == name;
    JoinNameOps(s0, s, u, name, answer);
    var w := JoinName(s, u, name, answer);
    if !w.stop && UpToComma(text) < |text| {
      JoinTextOps(s0, w.s, u, Rest(text), ask, says);
    } else if !w.stop {
      assert JoinText(w.s, u, "", ask) == w.s;
    }
    JoinedStep(s0, s, w, JoinText(s, u, text, ask), u, fields, says);
  }

  // ---- a JOIN of channels the user is not on, and stays on

  function FreeCount(slots: Slots): nat {
    if slots == [] then 0 else (if slots[0] == None then 1 else 0) + FreeCount(slots[1..])
  }

  lemma {:induction false} FreeSlotTaken(slots: Slots, c: string)
    ensures FreeSlot(slots).Some? <==> FreeCount(slots) > 0
    ensures FreeSlot(slots).Some? ==>
              FreeCount(slots[FreeSlot(slots).value := Some(c)]) == FreeCount(slots) - 1
  {
    if slots != [] {
      FreeSlotTaken(slots[1..], c);
      if slots[0] == None {
        assert slots[0 := Some(c)][1..] == slots[1..];
      } else if FreeSlot(slots).Some? {
        var i := FreeSlot(slots[1..]).value;
        assert slots[i + 1 := Some(c)][1..] == slots[1..][i := Some(c)];
      }
    }
  }

  // Different channels, by names that are joined.
  predicate Plain(fields: seq<string>) {
    && (forall i :: 0 <= i < |fields| ==> fields[i] != "" && Joins(fields[i]))
    && forall i, j :: 0 <= i < j < |fields| ==> Lower(fields[i]) != Lower(fields[j])
  }

  predicate InList(fields: seq<string>, d: string) {
    exists i :: 0 <= i < |fields| && Lower(fields[i]) == d
  }

  lemma PlainTail(fields: seq<string>)
    requires fields != [] && Plain(fields)
    ensures Plain(fields[1..]) && !InList(fields[1..], Lower(fields[0]))
    ensures forall d :: InList(fields, d) <==> InList(fields[1..], d) || d == Lower(fields[0])
  {
    assert forall i :: 0 <= i < |fields| - 1 ==> fields[1..][i] == fields[i + 1];
    forall d
      ensures InList(fields, d) <==> InList(fields[1..], d) || d == Lower(fields[0])
    {
      if i :| 0 <= i < |fields| - 1 && Lower(fields[1..][i]) == d {
        assert Lower(fields[i + 1]) == d;
      }
    }
  }

  // The user is on none of them, and has a slot for each.
  ghost predicate Room(s: State, u: nat, fields: seq<string>) {
    && u in s.users && FreeCount(s.users[u]) >= |fields|
    && forall i :: 0 <= i < |fields| ==> On(s, Lower(fields[i]), u) == 0
  }

  lemma JoinedRoom(s: State, u: nat, fields: seq<string>, answer: Answer)
    requires Valid(s) && fields != [] && Plain(fields) && Room(s, u, fields) && answer.Stay?
    ensures Fits(s, u, fields[0], answer)
    ensures var w := JoinName(s, u, fields[0], answer); Valid(w.s) && !w.stop && Room(w.s, u, fields[1..])
  {
    var c := Lower(fields[0]);
    FreeSlotTaken(s.users[u], c);
    PlainTail(fields);
    JoinStays(s, u, fields[0], answer);
    var w := JoinName(s, u, fields[0], answer);
    forall i | 0 <= i < |fields| - 1
      ensures On(w.s, Lower(fields[1..][i]), u) == 0
    {
      assert fields[1..][i] == fields[i + 1];
    }
  }

  lemma {:induction false} RoomFits(s: State, u: nat, text: string, ask: (State, string) -> Answer)
    requires Valid(s) && text != "" && Plain(Fields(text)) && Room(s, u, Fields(text))
    requires forall t, x {:trigger ask(t, x)} :: ask(t, x).Stay?
    ensures JoinsFit(s, u, text, ask)
    decreases |text|
  {
    var n, fields := UpToComma(text), Fields(text);
    FieldsFirst(text);
    JoinedRoom(s, u, fields, ask(s, text));
    PlainTail(fields);
    if n < |text| {
      var w := JoinName(s, u, text[..n], ask(s, text));
      assert fields[1..] == Fields(text[n + 1..]) && fields[1] != "";
      RoomFits(w.s, u, text[n + 1..], ask);
    } else {
      assert text[n..] == "";
    }
  }

  lemma {:induction false} PlainOp(fields: seq<string>, says: nat -> Answer, s: State, u: nat, d: string,
                                   op: Option<nat>)
    requires Plain(fields) && forall k :: says(k).Stay?
    ensures var r := JoinedOp(fields, says, s, u, d, op);
            if InList(fields, d) then
              exists i :: 0 <= i < |fields| && Lower(fields[i]) == d && r == Some(says(|fields| - i).flags)
            else r == op
    decreases |fields|
  {
    if fields != [] {
      PlainTail(fields);
      var rest, op' := fields[1..], if Lower(fields[0]) == d then Some(says(|fields|).flags) else op;
      PlainOp(rest, says, s, u, d, op');
      var r := JoinedOp(rest, says, s, u, d, op');
      if InList(rest, d) {
        var i :| 0 <= i < |rest| && Lower(rest[i]) == d && r == Some(says(|rest| - i).flags);
        assert Lower(fields[i + 1]) == d && |fields| - (i + 1) == |rest| - i;
      } else if Lower(fields[0]) == d {
        assert Lower(fields[0]) == d && r == Some(says(|fields| - 0).flags);
      }
    }
  }

  lemma OnFromOps(s: State, t: State, d: string, v: nat, joined: bool)
    requires Valid(s) && Valid(t) && (joined ==> On(s, d, v) == 0)
    requires if joined then Op(t, d, v).Some? else Op(t, d, v) == Op(s, d, v)
    ensures On(t, d, v) == On(s, d, v) + if joined then 1 else 0
  {
    OpIsOn(s, d, v);
    OpIsOn(t, d, v);
    AtMostOnce(s, d, v);
    AtMostOnce(t, d, v);
  }

  lemma PlainOps(s: State, t: State, u: nat, fields: seq<string>, says: nat -> Answer)
    requires Valid(s) && Valid(t) && Plain(fields) && Room(s, u, fields) && JoinedAs(s, s, t, u, fields, says)
    requires forall k :: says(k).Stay?
    ensures forall d, v :: On(t, d, v) == On(s, d, v) + if v == u && InList(fields, d) then 1 else 0
  {
    forall d, v
      ensures On(t, d, v) == On(s, d, v) + if v == u && InList(fields, d) then 1 else 0
    {
      PlainOp(fields, says, s, u, d, Op(s, d, u));
      OnFromOps(s, t, d, v, v == u && InList(fields, d));
    }
  }

  lemma PlainFlags(s: State, t: State, u: nat, fields: seq<string>, says: nat -> Answer, i: nat)
    requires Plain(fields) && JoinedAs(s, s, t, u, fields, says) && i < |fields| && forall k :: says(k).Stay?
    ensures Op(t, Lower(fields[i]), u) == Some(says(|fields| - i).flags)
  {
    var d := Lower(fields[i]);
    PlainOp(fields, says, s, u, d, Op(s, d, u));
  }

  lemma JoinListIs(s: State, u: nat, text: string, ask: (State, string) -> Answer, says: nat -> Answer)
    requires Valid(s) && Plain(Fields(text)) && Room(s, u, Fields(text))
    requires forall t, x {:trigger ask(t, x)} :: ask(t, x) == says(|Fields(x)|)
    requires forall k :: says(k).Stay?
    ensures var t := JoinText(s, u, text, ask); Valid(t) && JoinedAs(s, s, t, u, Fields(text), says)
  {
    assert Fields(text)[0] != "";
    RoomFits(s, u, text, ask);
    JoinTextKeepsIff(s, u, text, ask);
    JoinTextOps(s, s, u, text, ask, says);
  }

  /** Who joins a list of different channels, is on none of them, has a slot for each and stays on all, ends up on
      exactly these, each once and with the op flags answered; nothing else changes. */
  lemma JoinListJoins(s: State, u: nat, text: string, ask: (State, string) -> Answer, says: nat -> Answer)
    requires Valid(s) && Plain(Fields(text)) && Room(s, u, Fields(text))
    requires forall t, x {:trigger ask(t, x)} :: ask(t, x) == says(|Fields(x)|)
    requires forall k :: says(k).Stay?
    ensures var t, fields := JoinText(s, u, text, ask), Fields(text);
            && Valid(t)
            && (forall d, v :: On(t, d, v) == On(s, d, v) + if v == u && InList(fields, d) then 1 else 0)
            && (forall i :: 0 <= i < |fields| ==> Op(t, Lower(fields[i]), u) == Some(says(|fields| - i).flags))
  {
    JoinListIs(s, u, text, ask, says);
    var t, fields := JoinText(s, u, text, ask), Fields(text);
    PlainOps(s, t, u, fields, says);
    forall i | 0 <= i < |fields|
      ensures Op(t, Lower(fields[i]), u) == Some(says(|fields| - i).flags)
    {
      PlainFlags(s, t, u, fields, says, i);
    }
  }

  lemma AtMostOnce(s: State, c: string, u: nat)
    requires Valid(s)
    ensures On(s, c, u) <= 1
  {
    if u in s.users {
      assert SlotCount(s.users[u], c) == On(s, c, u);
    }
  }

  // ---- what a PART comes to

  // The channels u is off after the list, those in left included: it ends at the first that others are on and u is not.
  ghost function Left(fields: seq<string>, s: State, u: nat, left: set<string>): set<string> {
    if fields == [] || NotRead(fields) then left
    else
      var name, rest := ReadAs(fields[0]), fields[1..];
      var c := Lower(name);
      if Starts(name, '+') then Left(rest, s, u, left)
      else if Op(s, c, u).Some? && c !in left then Left(rest, s, u, left + {c})
      else if Alone(s, u, c) then Left(rest, s, u, left)
      else left
  }

  // t is s with u off the channels in left.
  ghost predicate Off(s: State, t: State, u: nat, left: set<string>) {
    SameOthers(s, t, u) && forall d :: Op(t, d, u) == if d in left then None else Op(s, d, u)
  }

  lemma PartNameOff(s0: State, s: State, u: nat, name: string, left: set<string>)
    requires Valid(s) && |name| < CHANLEN && Off(s0, s, u, left)
    ensures var w, c := PartName(s, u, name), Lower(name);
            && Valid(w.s)
            && w.stop == (!Starts(name, '+') && Op(s, c, u).None? && !Alone(s0, u, c))
            && Off(s0, w.s, u, if Starts(name, '+') || Op(s, c, u).None? then left else left + {c})
  {
    var w, c := PartName(s, u, name), Lower(name);
    PartOneIsValid(s, u, c);
    AloneSame(s0, s, u, c);
    OpIsOn(s, c, u);
    if !Starts(name, '+') && Op(s, c, u).Some? {
      var j := FindMember(s.chans[c], u).value;
      forall d, v
        ensures Op(w.s, d, v) == if d == c && v == u then None else Op(s, d, v)
      {
        DeletedOps(s, c, j, d, v);
      }
    }
  }

  lemma LeftTooLong(fields: seq<string>, s: State, u: nat, left: set<string>)
    requires |fields| > 1 && |fields[0]| >= CHANLEN
    ensures Left(fields, s, u, left) == Left([""] + fields[1..], s, u, left)
  {
    var alike := [""] + fields[1..];
    assert alike[1..] == fields[1..] && |alike| == |fields|;
  }

  lemma LeftStep(fields: seq<string>, s: State, u: nat, left: set<string>, off: set<string>, stop: bool)
    requires fields != [] && !NotRead(fields)
    requires var name := ReadAs(fields[0]);
             var here := !Starts(name, '+') && Op(s, Lower(name), u).Some? && Lower(name) !in left;
             off == (if here then left + {Lower(name)} else left)
             && stop == (!Starts(name, '+') && !here && !Alone(s, u, Lower(name)))
    ensures Left(fields, s, u, left) == if stop then off else Left(fields[1..], s, u, off)
  {
  }

  /** What a PART or a KICK of any list comes to: the user is off each channel of the list that it was on, up to the
      first that it was not on and others are; nobody else's membership changes. */
  lemma {:induction false} PartTextOff(s0: State, s: State, u: nat, text: string, left: set<string>)
    requires Valid(s) && Off(s0, s, u, left)
    ensures Off(s0, PartText(s, u, text), u, Left(Fields(text), s0, u, left))
    decreases |text|, 1
  {
    if text != "" {
      var n := UpToComma(text);
      FieldsFirst(text);
      if n < CHANLEN {
        PartFirst(s0, s, u, text, left);
      } else if n < |text| {
        TooLongFields(text);
        PartTextOff(s0, s, u, text[n..], left);
        LeftTooLong(Fields(text), s0, u, left);
      }
    }
  }

  // The step for a list that starts with a name of proper length.
  lemma {:induction false} PartFirst(s0: State, s: State, u: nat, text: string, left: set<string>)
    requires Valid(s) && Off(s0, s, u, left) && text != "" && UpToComma(text) < CHANLEN
    ensures Off(s0, PartText(s, u, text), u, Left(Fields(text), s0, u, left))
    decreases |text|, 0
  {
    var name, fields := text[..UpToComma(text)], Fields(text);
    var w, c := PartName(s, u, name), Lower(name);
    RestIs(text);
    PartNameOff(s0, s, u, name, left);
    var off := if Starts(name, '+') || Op(s, c, u).None? then left else left + {c};
    assert Op(s, c, u).Some? <==> Op(s0, c, u).Some? && c !in left;
    LeftStep(fields, s0, u, left, off, w.stop);
    if !w.stop && UpToComma(text) < |text| {
      PartTextOff(s0, w.s, u, Rest(text), off);
    } else if !w.stop {
      assert PartText(w.s, u, "") == w.s;
    }
  }

  lemma {:induction false} PlainLeft(fields: seq<string>, s: State, u: nat, left: set<string>, d: string)
    requires Plain(fields)
    requires forall c :: InList(fields, c) ==> Op(s, c, u).Some? && c !in left
    ensures d in Left(fields, s, u, left) <==> d in left || InList(fields, d)
    decreases |fields|
  {
    if fields != [] {
      PlainTail(fields);
      assert InList(fields, Lower(fields[0]));
      PlainLeft(fields[1..], s, u, left + {Lower(fields[0])}, d);
    }
  }

  /** A PART of different channels that the user is on ends these memberships and no other, and changes no op flags. */
  lemma PartListParts(s: State, u: nat, text: string)
    requires Valid(s) && Plain(Fields(text)) && forall c :: InList(Fields(text), c) ==> On(s, c, u) > 0
    ensures var t := PartText(s, u, text);
            forall d, v :: Op(t, d, v) == if v == u && InList(Fields(text), d) then None else Op(s, d, v)
  {
    var fields := Fields(text);
    PartTextOff(s, s, u, text, {});
    forall c | InList(fields, c)
      ensures Op(s, c, u).Some?
    {
      OpIsOn(s, c, u);
    }
    forall d
      ensures d in Left(fields, s, u, {}) <==> InList(fields, d)
    {
      PlainLeft(fields, s, u, {}, d);
    }
  }
}
