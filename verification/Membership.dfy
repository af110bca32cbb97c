/** chanserv.c: who is on which channel. A user record has ten slots for its channels; a listed channel has its members.
    Records are numbers, a channel is the lower-cased name that finds it, and a member carries its op flags. */
module Membership {
  import opened Text
  import L = ListMacros

  const NICKCHANHASHSIZE := 10

  type Slots = seq<Option<string>>

  datatype Member = Member(person: nat, op: nat)

  // `freed` is set where addChan frees the record its caller goes on to use.
  datatype State = State(users: map<nat, Slots>, chans: map<string, seq<Member>>, freed: bool)

  // ---- counts

  function SlotCount(slots: Slots, c: string): nat {
    if slots == [] then 0 else (if slots[0] == Some(c) then 1 else 0) + SlotCount(slots[1..], c)
  }

  function MemberCount(members: seq<Member>, u: nat): nat {
    if members == [] then 0 else (if members[0].person == u then 1 else 0) + MemberCount(members[1..], u)
  }

  // How often u is listed on c.
  function On(s: State, c: string, u: nat): nat {
    if c in s.chans then MemberCount(s.chans[c], u) else 0
  }

  /** A record is on a channel's member list exactly if the channel is in exactly one of its slots; it is never listed
      twice, only online records are listed, and every listed channel has a member. */
  ghost predicate Valid(s: State) {
    && !s.freed
    && (forall u :: u in s.users ==> |s.users[u]| == NICKCHANHASHSIZE)
    && (forall u, c :: u in s.users ==> SlotCount(s.users[u], c) == On(s, c, u) <= 1)
    && (forall u, c :: u !in s.users ==> On(s, c, u) == 0)
    && (forall c :: c in s.chans ==> s.chans[c] != [])
  }

  lemma {:induction false} SlotSet(slots: Slots, i: nat, v: Option<string>, c: string)
    requires i < |slots|
    ensures SlotCount(slots[i := v], c) ==
            SlotCount(slots, c) + (if v == Some(c) then 1 else 0) - (if slots[i] == Some(c) then 1 else 0)
  {
    if i > 0 {
      assert slots[i := v][1..] == slots[1..][i - 1 := v];
      SlotSet(slots[1..], i - 1, v, c);
    } else {
      assert slots[0 := v][1..] == slots[1..];
    }
  }

  lemma {:induction false} SlotHas(slots: Slots, i: nat, c: string)
    requires i < |slots| && slots[i] == Some(c)
    ensures SlotCount(slots, c) >= 1
  {
    if i > 0 {
      SlotHas(slots[1..], i - 1, c);
    }
  }

  // Every slot that holds c is emptied.
  function Cleared(slots: Slots, c: string): (r: Slots)
    ensures |r| == |slots| && forall i :: 0 <= i < |slots| ==> r[i] == if slots[i] == Some(c) then None else slots[i]
  {
    seq(|slots|, i requires 0 <= i < |slots| => if slots[i] == Some(c) then None else slots[i])
  }

  lemma {:induction false} ClearedCount(slots: Slots, c: string, d: string)
    ensures SlotCount(Cleared(slots, c), d) == if c == d then 0 else SlotCount(slots, d)
  {
    if slots != [] {
      assert Cleared(slots, c)[1..] == Cleared(slots[1..], c);
      ClearedCount(slots[1..], c, d);
    }
  }

  lemma {:induction false} ClearedNothing(slots: Slots, c: string)
    requires SlotCount(slots, c) == 0
    ensures Cleared(slots, c) == slots
  {
    forall i | 0 <= i < |slots|
      ensures slots[i] != Some(c)
    {
      if slots[i] == Some(c) {
        SlotHas(slots, i, c);
      }
    }
  }

  lemma {:induction false} MemberAppend(members: seq<Member>, x: Member, u: nat)
    ensures MemberCount(members + [x], u) == MemberCount(members, u) + if x.person == u then 1 else 0
  {
    if members == [] {
      assert [x][1..] == [];
    } else {
      assert (members + [x])[0] == members[0] && (members + [x])[1..] == members[1..] + [x];
      MemberAppend(members[1..], x, u);
    }
  }

  lemma {:induction false} MemberRemove(members: seq<Member>, j: nat, u: nat)
    requires j < |members|
    ensures MemberCount(L.RemoveAt(members, j), u) == MemberCount(members, u) - if members[j].person == u then 1 else 0
    ensures MemberCount(members, members[j].person) >= 1
  {
    if j > 0 {
      assert L.RemoveAt(members, j)[1..] == L.RemoveAt(members[1..], j - 1);
      MemberRemove(members[1..], j - 1, u);
    } else {
      assert L.RemoveAt(members, 0) == members[1..];
    }
  }

  lemma {:induction false} MemberOp(members: seq<Member>, j: nat, op: nat, u: nat)
    requires j < |members|
    ensures MemberCount(members[j := members[j].(op := op)], u) == MemberCount(members, u)
  {
    var x := members[j].(op := op);
    if j > 0 {
      assert members[j := x][1..] == members[1..][j - 1 := x];
      MemberOp(members[1..], j - 1, op, u);
    } else {
      assert members[0 := x][1..] == members[1..];
    }
  }

  // getChanUserData
  function FindMember(members: seq<Member>, u: nat): (j: Option<nat>)
    ensures j.Some? ==> j.value < |members| && members[j.value].person == u
    ensures j.None? <==> MemberCount(members, u) == 0
  {
    if members == [] then None
    else if members[0].person == u then Some(0)
    else match FindMember(members[1..], u)
         case None => None
         case Some(j) => Some(j + 1)
  }

  lemma {:induction false} FindOnly(members: seq<Member>, x: Member)
    requires MemberCount(members, x.person) == 0
    ensures FindMember(members + [x], x.person) == Some(|members|)
  {
    if members != [] {
      assert (members + [x])[0] == members[0] && (members + [x])[1..] == members[1..] + [x];
      FindOnly(members[1..], x);
    }
  }

  function FreeSlot(slots: Slots): (i: Option<nat>)
    ensures i.Some? ==> i.value < |slots| && slots[i.value] == None
    ensures i.None? ==> forall k :: 0 <= k < |slots| ==> slots[k].Some?
  {
    if slots == [] then None
    else if slots[0] == None then Some(0)
    else match FreeSlot(slots[1..])
         case None => None
         case Some(i) => Some(i + 1)
  }

  // ---- adding and removing one member

  function Members(s: State, c: string): seq<Member> {
    if c in s.chans then s.chans[c] else []
  }

  // addChanUser and the search for a free slot.
  function Added(s: State, c: string, u: nat, op: nat, slot: Option<nat>): State
    requires u in s.users && (slot.Some? ==> slot.value < |s.users[u]|)
  {
    s.(chans := s.chans[c := Members(s, c) + [Member(u, op)]],
       users := if slot.Some? then s.users[u := s.users[u][slot.value := Some(c)]] else s.users)
  }

  // delChanUser
  function Deleted(s: State, c: string, j: nat): State
    requires c in s.chans && j < |s.chans[c]|
  {
    var u := s.chans[c][j].person;
    var rest := L.RemoveAt(s.chans[c], j);
    s.(chans := if rest == [] then s.chans - {c} else s.chans[c := rest],
       users := if u in s.users then s.users[u := Cleared(s.users[u], c)] else s.users)
  }

  lemma AddedIsValid(s: State, c: string, u: nat, op: nat, i: nat)
    requires Valid(s) && u in s.users && On(s, c, u) == 0 && i < NICKCHANHASHSIZE && s.users[u][i] == None
    ensures Valid(Added(s, c, u, op, Some(i)))
    ensures forall d, v :: On(Added(s, c, u, op, Some(i)), d, v) == On(s, d, v) + if d == c && v == u then 1 else 0
  {
    var s' := Added(s, c, u, op, Some(i));
    forall d, v
      ensures On(s', d, v) == On(s, d, v) + if d == c && v == u then 1 else 0
    {
      MemberAppend(Members(s, c), Member(u, op), v);
    }
    forall v, d | v in s'.users
      ensures SlotCount(s'.users[v], d) == On(s', d, v) <= 1
    {
      if v == u {
        SlotSet(s.users[u], i, Some(c), d);
      }
    }
  }

  lemma DeletedIsValid(s: State, c: string, j: nat)
    requires Valid(s) && c in s.chans && j < |s.chans[c]|
    ensures Valid(Deleted(s, c, j))
    ensures var u := s.chans[c][j].person;
            forall d, v :: On(Deleted(s, c, j), d, v) == if d == c && v == u then 0 else On(s, d, v)
  {
    var s', u := Deleted(s, c, j), s.chans[c][j].person;
    MemberRemove(s.chans[c], j, u);
    assert On(s, c, u) >= 1;
    assert u in s.users;
    forall d, v
      ensures On(s', d, v) == if d == c && v == u then 0 else On(s, d, v)
    {
      MemberRemove(s.chans[c], j, v);
    }
    forall v, d | v in s'.users
      ensures SlotCount(s'.users[v], d) == On(s', d, v) <= 1
    {
      if v == u {
        ClearedCount(s.users[u], c, d);
      }
    }
  }

  // ---- the events

  // What ChanServ makes of someone who joins: it lets them in with these op flags, kicks them for an autokick, bans and
  // kicks them, or (on a channel with no one else) keeps its key.
  datatype Answer = Stay(flags: nat) | Akick | BanKick | Keyed

  function UpToComma(text: string): (n: nat)
    ensures n <= |text|
  {
    if text == "" || text[0] == ',' then 0 else 1 + UpToComma(text[1..])
  }

  function StripColon(text: string): string {
    if text != "" && text[0] == ':' then text[1..] else text
  }

  // The text after the first name; the comma stays where the name is too long for the buffer.
  function AfterName(text: string): (rest: string)
    requires text != ""
    ensures |rest| < |text|
  {
    var n := UpToComma(text);
    if n >= CHANLEN || n == |text| then text[n..] else text[n + 1..]
  }

  // One name of remUserFromChan; `stop` where it returns.
  datatype Went = Went(s: State, stop: bool)

  function PartOne(s: State, u: nat, c: string): Went {
    if c !in s.chans then Went(s, false)
    else match FindMember(s.chans[c], u)
         case None => Went(s, true)
         case Some(j) => Went(Deleted(s, c, j), false)
  }

  function PartName(s: State, u: nat, name: string): Went {
    if |name| >= CHANLEN || (name != "" && name[0] == '+') then Went(s, false) else PartOne(s, u, Lower(name))
  }

  // remUserFromChan, after a leading colon.
  function PartText(s: State, u: nat, text: string): State
    decreases |text|
  {
    if text == "" then s
    else
      var w := PartName(s, u, text[..UpToComma(text)]);
      if w.stop then w.s else PartText(w.s, u, AfterName(text))
  }

  // No name that remUserFromChan comes to is too long for the buffer it is copied to.
  predicate PartInside(s: State, u: nat, text: string)
    decreases |text|
  {
    text == "" ||
      (var w := PartName(s, u, text[..UpToComma(text)]);
       UpToComma(text) < CHANLEN && (w.stop || PartInside(w.s, u, AfterName(text))))
  }

  function EmptySlot(s: State, u: nat, i: nat): State
    requires u in s.users && i < |s.users[u]|
  {
    s.(users := s.users[u := s.users[u][i := None]])
  }

  function LeftSlot(s: State, u: nat, i: nat, c: string): State
    requires u in s.users && i < |s.users[u]|
  {
    match FindMember(Members(s, c), u)
    case None => EmptySlot(s, u, i)
    case Some(j) => EmptySlot(Deleted(s, c, j), u, i)
  }

  // remFromAllChans, from slot i.
  function PartAll(s: State, u: nat, i: nat): State
    requires u in s.users && |s.users[u]| == NICKCHANHASHSIZE && i <= NICKCHANHASHSIZE
    decreases NICKCHANHASHSIZE - i, u
  {
    if i == NICKCHANHASHSIZE then s
    else match s.users[u][i]
         case None => PartAll(s, u, i + 1)
         case Some(c) =>
           PartAll(LeftSlot(s, u, i, c), u, i + 1)
  }

  // One name of addUserToChan that is neither 0 nor +.
  function JoinOne(s: State, u: nat, name: string, answer: Answer): Went
    requires u in s.users
  {
    var c := Lower(name);
    var isNew := Members(s, c) == [];
    var before := if isNew && c in s.chans then s.(freed := true) else s;
    var s1 := Added(before, c, u, 0, FreeSlot(s.users[u]));
    var j := |Members(s, c)|;
    match answer
    case Akick => Went(Deleted(s1, c, j), true)
    case BanKick => Went(PartOne(s1, u, c).s, true)
    case Keyed => if isNew then Went(PartText(s1, u, StripColon(name)), true) else Went(s1, false)
    case Stay(flags) => Went(s1.(chans := s1.chans[c := s1.chans[c][j := Member(u, flags)]]), false)
  }

  // One name of addUserToChan; a name starting with 0 leaves all channels, one with + is ignored.
  function JoinName(s: State, u: nat, name: string, answer: Answer): Went
    requires u in s.users
  {
    if |name| >= CHANLEN || (name != "" && name[0] == '+') then Went(s, false)
    else if name != "" && name[0] == '0' then
      Went(if |s.users[u]| == NICKCHANHASHSIZE then PartAll(s, u, 0) else s, false)
    else JoinOne(s, u, name, answer)
  }

  // addUserToChan, after a leading colon. The checks on a name are made anew each time it comes up, in the state then
  // reached: `ask` gets that state and the list from the name on.
  function JoinText(s: State, u: nat, text: string, ask: (State, string) -> Answer): State
    requires u in s.users
    decreases |text|
  {
    if text == "" then s
    else
      var w := JoinName(s, u, text[..UpToComma(text)], ask(s, text));
      if w.stop || u !in w.s.users then w.s else JoinText(w.s, u, AfterName(text), ask)
  }

  // changeNickOnAllChans, from slot i.
  function MoveAll(s: State, old_: nat, new_: nat, i: nat): State
    requires old_ in s.users && new_ in s.users
    requires |s.users[old_]| == NICKCHANHASHSIZE == |s.users[new_]| && i <= NICKCHANHASHSIZE
    decreases NICKCHANHASHSIZE - i, old_
  {
    if i == NICKCHANHASHSIZE then s
    else match s.users[old_][i]
         case None => MoveAll(s, old_, new_, i + 1)
         case Some(c) =>
           match FindMember(Members(s, c), old_)
           case None => MoveAll(s, old_, new_, i + 1)
           case Some(j) => MoveAll(Moved(s, old_, new_, i, c, j), old_, new_, i + 1)
  }

  function Moved(s: State, old_: nat, new_: nat, i: nat, c: string, j: nat): State
    requires new_ in s.users && i < |s.users[new_]| && c in s.chans && j < |s.chans[c]|
  {
    Deleted(Added(s, c, new_, s.chans[c][j].op, Some(i)), c, j)
  }

  // The loop of cs_mkick over the members.
  function KickAll(s: State, c: string): State
    decreases |Members(s, c)|
  {
    if Members(s, c) == [] then s else KickAll(Deleted(s, c, 0), c)
  }

  datatype Event =
    | Connect(user: nat)
    | Join(user: nat, text: string, ask: (State, string) -> Answer)
    | Part(user: nat, text: string)
    | Quit(user: nat)
    | Nick(user: nat, to: nat)
    | MassKick(name: string)

  const EMPTY: Slots := [None, None, None, None, None, None, None, None, None, None]

  // delNick
  function Gone(s: State, u: nat): State {
    s.(users := s.users - {u})
  }

  // A kick, by a user or by banKick, is a PART of the user kicked. A record that is not online, or is already,
  // changes nothing.
  function Step(s: State, e: Event): State {
    match e
    case Connect(u) => if u in s.users then s else s.(users := s.users[u := EMPTY])
    case Join(u, text, ask) => if u in s.users then JoinText(s, u, StripColon(text), ask) else s
    case Part(u, text) => if u in s.users then PartText(s, u, StripColon(text)) else s
    case Quit(u) =>
      if u in s.users && |s.users[u]| == NICKCHANHASHSIZE then
        Gone(PartAll(s, u, 0), u)
      else s
    case Nick(u, to) =>
      if u in s.users && to !in s.users && |s.users[u]| == NICKCHANHASHSIZE then
        Gone(MoveAll(s.(users := s.users[to := EMPTY]), u, to, 0), u)
      else s
    case MassKick(name) => KickAll(s, Lower(name))
  }

  // ---- PART, KICK, QUIT

  lemma PartOneIsValid(s: State, u: nat, c: string)
    requires Valid(s)
    ensures Valid(PartOne(s, u, c).s) && PartOne(s, u, c).s.users.Keys == s.users.Keys
    ensures forall d, v :: On(PartOne(s, u, c).s, d, v) == if d == c && v == u then 0 else On(s, d, v)
  {
    if c in s.chans {
      var j := FindMember(s.chans[c], u);
      if j.Some? {
        DeletedIsValid(s, c, j.value);
        MemberRemove(s.chans[c], j.value, u);
        assert On(s, c, u) >= 1;
      }
    }
  }

  lemma {:induction false} PartTextIsValid(s: State, u: nat, text: string)
    requires Valid(s)
    ensures Valid(PartText(s, u, text)) && PartText(s, u, text).users.Keys == s.users.Keys
    decreases |text|
  {
    if text != "" {
      var name := text[..UpToComma(text)];
      PartOneIsValid(s, u, Lower(name));
      var w := PartName(s, u, name);
      if !w.stop {
        PartTextIsValid(w.s, u, AfterName(text));
      }
    }
  }

  /** A mass kick empties the channel, which goes, and touches no other. */
  lemma {:induction false} KickAllIsValid(s: State, c: string)
    requires Valid(s)
    ensures var t := KickAll(s, c);
            && Valid(t) && c !in t.chans && t.users.Keys == s.users.Keys
            && forall d, u :: On(t, d, u) == if d == c then 0 else On(s, d, u)
    decreases |Members(s, c)|
  {
    if Members(s, c) != [] {
      DeletedIsValid(s, c, 0);
      KickAllIsValid(Deleted(s, c, 0), c);
    }
  }

  predicate EmptyBelow(slots: Slots, i: nat)
    requires i <= |slots|
  {
    forall k :: 0 <= k < i ==> slots[k] == None
  }

  lemma {:induction false} NoneCount(slots: Slots, c: string)
    requires EmptyBelow(slots, |slots|)
    ensures SlotCount(slots, c) == 0
  {
    if slots != [] {
      NoneCount(slots[1..], c);
    }
  }

  lemma {:induction false} PartAllIsValid(s: State, u: nat, i: nat)
    requires Valid(s) && u in s.users && i <= NICKCHANHASHSIZE && EmptyBelow(s.users[u], i)
    ensures var s' := PartAll(s, u, i);
            && Valid(s') && s'.users.Keys == s.users.Keys && EmptyBelow(s'.users[u], NICKCHANHASHSIZE)
            && forall d, v :: v != u ==> On(s', d, v) == On(s, d, v)
    decreases NICKCHANHASHSIZE - i
  {
    if i < NICKCHANHASHSIZE {
      if s.users[u][i].None? {
        PartAllIsValid(s, u, i + 1);
      } else {
        var c := s.users[u][i].value;
        SlotHas(s.users[u], i, c);
        assert On(s, c, u) == 1;
        var j := FindMember(Members(s, c), u).value;
        DeletedIsValid(s, c, j);
        var s' := Deleted(s, c, j);
        assert s'.users[u][i := None] == s'.users[u];
        assert s'.users[u := s'.users[u]] == s'.users && EmptySlot(s', u, i) == s';
        PartAllIsValid(s', u, i + 1);
      }
    }
  }

  // A record with no channel can go.
  lemma RemovedIsValid(s: State, u: nat)
    requires Valid(s) && u in s.users && EmptyBelow(s.users[u], NICKCHANHASHSIZE)
    ensures Valid(Gone(s, u))
  {
    var s' := Gone(s, u);
    forall v, c | v !in s'.users
      ensures On(s', c, v) == 0
    {
      assert On(s', c, v) == On(s, c, v);
      if v == u {
        NoneCount(s.users[u], c);
        assert SlotCount(s.users[u], c) == On(s, c, u);
      }
    }
  }

  // ---- JOIN

  // The user is not on the channel, and it can be noted in a slot or they do not get to stay.
  predicate Fits(s: State, u: nat, name: string, answer: Answer)
    requires u in s.users
  {
    On(s, Lower(name), u) == 0 && (FreeSlot(s.users[u]).Some? || Kicks(s, name, answer))
  }

  predicate Kicks(s: State, name: string, answer: Answer) {
    answer.Akick? || answer.BanKick? || (answer.Keyed? && Members(s, Lower(name)) == [] && PartsItself(name))
  }

  // A PART of this name parts the channel of this name.
  predicate PartsItself(name: string) {
    name != "" && |name| < CHANLEN && Without(name, ',') && name[0] != ':' && name[0] != '+'
  }

  lemma {:induction false} UpToCommaAll(text: string)
    requires Without(text, ',')
    ensures UpToComma(text) == |text|
  {
    if text != "" {
      UpToCommaAll(text[1..]);
    }
  }

  lemma PartTextOfName(s: State, u: nat, name: string)
    requires PartsItself(name)
    ensures PartText(s, u, StripColon(name)) == PartOne(s, u, Lower(name)).s
  {
    UpToCommaAll(name);
    assert name[..|name|] == name && name[|name|..] == "";
    var w := PartOne(s, u, Lower(name));
    assert PartText(w.s, u, "") == w.s;
  }

  lemma PartOneElsewhere(s: State, u: nat, d: string, c: string)
    requires u in s.users && c != d
    ensures var t := PartOne(s, u, d).s;
            u in t.users && On(t, c, u) == On(s, c, u) && SlotCount(t.users[u], c) == SlotCount(s.users[u], c)
  {
    ClearedCount(s.users[u], d, c);
  }

  // No name of the list is that of c.
  predicate Elsewhere(text: string, c: string) {
    |text| <= |c| && (|text| < |c| || UpToComma(text) < |text| || |text| >= CHANLEN || (text != "" && text[0] == '+'))
  }

  lemma {:induction false} PartTextElsewhere(s: State, u: nat, text: string, c: string)
    requires u in s.users && (text == "" || Elsewhere(text, c))
    ensures var t := PartText(s, u, text);
            u in t.users && On(t, c, u) == On(s, c, u) && SlotCount(t.users[u], c) == SlotCount(s.users[u], c)
    decreases |text|
  {
    if text != "" {
      var name := text[..UpToComma(text)];
      var w := PartName(s, u, name);
      if |name| < CHANLEN && !(name != "" && name[0] == '+') {
        PartOneElsewhere(s, u, Lower(name), c);
      }
      if !w.stop {
        PartTextElsewhere(w.s, u, AfterName(text), c);
      }
    }
  }

  lemma {:induction false} CommaEnds(text: string)
    requires UpToComma(text) == |text|
    ensures Without(text, ',')
  {
    if text != "" {
      CommaEnds(text[1..]);
    }
  }

  lemma NameElsewhere(name: string)
    requires !PartsItself(name)
    ensures StripColon(name) == "" || Elsewhere(StripColon(name), Lower(name))
  {
    if name != "" && name[0] != ':' && UpToComma(name) == |name| {
      CommaEnds(name);
    }
  }

  lemma SetOpIsValid(s: State, c: string, j: nat, op: nat)
    requires Valid(s) && c in s.chans && j < |s.chans[c]|
    ensures var s' := s.(chans := s.chans[c := s.chans[c][j := s.chans[c][j].(op := op)]]);
            Valid(s') && forall d, v :: On(s', d, v) == On(s, d, v)
  {
    var s' := s.(chans := s.chans[c := s.chans[c][j := s.chans[c][j].(op := op)]]);
    forall d, v
      ensures On(s', d, v) == On(s, d, v)
    {
      MemberOp(s.chans[c], j, op, v);
    }
  }

  // Someone who is added and removed at once leaves everything as it was.
  lemma AddedThenDeleted(s: State, c: string, u: nat, slot: Option<nat>)
    requires Valid(s) && u in s.users && On(s, c, u) == 0 && slot == FreeSlot(s.users[u])
    ensures Deleted(Added(s, c, u, 0, slot), c, |Members(s, c)|) == s
  {
    var s1 := Added(s, c, u, 0, slot);
    var x := Member(u, 0);
    assert L.RemoveAt(Members(s, c) + [x], |Members(s, c)|) == Members(s, c);
    assert SlotCount(s.users[u], c) == 0;
    ClearedNothing(s.users[u], c);
    if slot.Some? {
      assert Cleared(s1.users[u], c) == s.users[u] by {
        assert forall i :: 0 <= i < |s.users[u]| ==> s.users[u][i] == Cleared(s.users[u], c)[i];
      }
    }
    var s2 := Deleted(s1, c, |Members(s, c)|);
    assert s2.users == s.users;
    assert s2.chans == s.chans;
  }

  lemma JoinKicked(s: State, u: nat, name: string, answer: Answer)
    requires Valid(s) && u in s.users && On(s, Lower(name), u) == 0 && Kicks(s, name, answer)
    ensures JoinOne(s, u, name, answer) == Went(s, true)
  {
    var c := Lower(name);
    var s1 := Added(s, c, u, 0, FreeSlot(s.users[u]));
    FindOnly(Members(s, c), Member(u, 0));
    AddedThenDeleted(s, c, u, FreeSlot(s.users[u]));
    if answer.Keyed? {
      PartTextOfName(s1, u, name);
    }
  }

  lemma JoinStays(s: State, u: nat, name: string, answer: Answer)
    requires Valid(s) && u in s.users && On(s, Lower(name), u) == 0 && !Kicks(s, name, answer)
    requires FreeSlot(s.users[u]).Some?
    ensures var w := JoinOne(s, u, name, answer);
            && Valid(w.s) && w.s.users.Keys == s.users.Keys
            && (!w.stop ==> forall d, v :: On(w.s, d, v) == On(s, d, v) + if d == Lower(name) && v == u then 1 else 0)
    ensures JoinOne(s, u, name, answer).stop ==> answer.Keyed?
  {
    var c := Lower(name);
    var s1 := Added(s, c, u, 0, FreeSlot(s.users[u]));
    AddedIsValid(s, c, u, 0, FreeSlot(s.users[u]).value);
    if answer.Stay? {
      SetOpIsValid(s1, c, |Members(s, c)|, answer.flags);
    } else {
      PartTextIsValid(s1, u, StripColon(name));
    }
  }

  // Who joins twice stays listed twice, or once without a slot.
  lemma DoubleJoinBreaks(s: State, u: nat, name: string, answer: Answer)
    requires Valid(s) && u in s.users && On(s, Lower(name), u) > 0
    ensures !Valid(JoinOne(s, u, name, answer).s)
  {
    var c := Lower(name);
    var s1 := Added(s, c, u, 0, FreeSlot(s.users[u]));
    var s', members := JoinOne(s, u, name, answer).s, Members(s, c);
    MemberAppend(members, Member(u, 0), u);
    assert On(s, c, u) == 1 && MemberCount(s1.chans[c], u) == 2;
    var j := if answer.Akick? then |members| else FindMember(s1.chans[c], u).value;
    if answer.Akick? || answer.BanKick? {
      MemberRemove(s1.chans[c], j, u);
      ClearedCount(s1.users[u], c, c);
      assert On(s', c, u) == 1 && SlotCount(s'.users[u], c) == 0;
    } else {
      if answer.Stay? {
        MemberOp(s1.chans[c], |members|, answer.flags, u);
        assert s1.chans[c][|members|].(op := answer.flags) == Member(u, answer.flags);
      }
      assert On(s', c, u) == 2;
    }
  }

  // Without a free slot, who stays is listed but not noted.
  lemma NoSlotBreaks(s: State, u: nat, name: string, answer: Answer)
    requires Valid(s) && u in s.users && On(s, Lower(name), u) == 0
    requires FreeSlot(s.users[u]).None? && !Kicks(s, name, answer)
    ensures !Valid(JoinOne(s, u, name, answer).s)
  {
    var c := Lower(name);
    var s1 := Added(s, c, u, 0, None);
    var s', members := JoinOne(s, u, name, answer).s, Members(s, c);
    MemberAppend(members, Member(u, 0), u);
    if answer.Stay? {
      MemberOp(s1.chans[c], |members|, answer.flags, u);
      assert s1.chans[c][|members|].(op := answer.flags) == Member(u, answer.flags);
    } else if members == [] {
      NameElsewhere(name);
      PartTextElsewhere(s1, u, StripColon(name), c);
    }
    assert On(s', c, u) == 1 && SlotCount(s'.users[u], c) == 0;
  }

  /** A JOIN of one channel, whatever its name, keeps the lists in step exactly if the user is not already on it and
      has a free slot or is not let stay; and it never comes to addChan's duplicate. */
  lemma JoinKeepsIff(s: State, u: nat, name: string, answer: Answer)
    requires Valid(s) && u in s.users
    ensures Valid(JoinOne(s, u, name, answer).s) <==> Fits(s, u, name, answer)
    ensures !JoinOne(s, u, name, answer).s.freed
  {
    if On(s, Lower(name), u) > 0 {
      DoubleJoinBreaks(s, u, name, answer);
    } else if Kicks(s, name, answer) {
      JoinKicked(s, u, name, answer);
    } else if FreeSlot(s.users[u]).None? {
      NoSlotBreaks(s, u, name, answer);
    } else {
      JoinStays(s, u, name, answer);
    }
    JoinNeverFrees(s, u, name, answer);
  }

  lemma {:induction false} PartTextFreed(s: State, u: nat, text: string)
    ensures PartText(s, u, text).freed == s.freed
    decreases |text|
  {
    if text != "" {
      PartTextFreed(PartName(s, u, text[..UpToComma(text)]).s, u, AfterName(text));
    }
  }

  lemma JoinNeverFrees(s: State, u: nat, name: string, answer: Answer)
    requires Valid(s) && u in s.users
    ensures !JoinOne(s, u, name, answer).s.freed
  {
    var s1 := Added(s, Lower(name), u, 0, FreeSlot(s.users[u]));
    PartTextFreed(s1, u, StripColon(name));
  }

  // A name that addUserToChan joins: not too long, no 0 and no +.
  predicate Joins(name: string) {
    |name| < CHANLEN && (name == "" || (name[0] != '0' && name[0] != '+'))
  }

  // Every name of the list that is joined can be.
  predicate JoinsFit(s: State, u: nat, text: string, ask: (State, string) -> Answer)
    requires u in s.users
    decreases |text|
  {
    text == "" ||
      (var name := text[..UpToComma(text)];
       && (Joins(name) ==> Fits(s, u, name, ask(s, text)))
       && var w := JoinName(s, u, name, ask(s, text));
          w.stop || u !in w.s.users || JoinsFit(w.s, u, AfterName(text), ask))
  }

  lemma JoinNameIsValid(s: State, u: nat, name: string, answer: Answer)
    requires Valid(s) && u in s.users
    requires Joins(name) ==> Fits(s, u, name, answer)
    ensures Valid(JoinName(s, u, name, answer).s) && JoinName(s, u, name, answer).s.users.Keys == s.users.Keys
  {
    if |name| < CHANLEN {
      if name != "" && name[0] == '0' {
        PartAllIsValid(s, u, 0);
      } else if name == "" || name[0] != '+' {
        if Kicks(s, name, answer) {
          JoinKicked(s, u, name, answer);
        } else {
          JoinStays(s, u, name, answer);
        }
      }
    }
  }

  // The lists are in step after each name.
  ghost predicate NamesKeep(s: State, u: nat, text: string, ask: (State, string) -> Answer)
    requires u in s.users
    decreases |text|
  {
    text == "" ||
      (var w := JoinName(s, u, text[..UpToComma(text)], ask(s, text));
       Valid(w.s) && (w.stop || u !in w.s.users || NamesKeep(w.s, u, AfterName(text), ask)))
  }

  /** A JOIN of a list keeps the lists in step, name by name, exactly if each name that it joins fits when its turn
      comes. */
  lemma {:induction false} JoinTextKeepsIff(s: State, u: nat, text: string, ask: (State, string) -> Answer)
    requires Valid(s) && u in s.users
    ensures NamesKeep(s, u, text, ask) <==> JoinsFit(s, u, text, ask)
    ensures JoinsFit(s, u, text, ask) ==> Valid(JoinText(s, u, text, ask))
    decreases |text|
  {
    if text != "" {
      var name, answer := text[..UpToComma(text)], ask(s, text);
      var w := JoinName(s, u, name, answer);
      if Joins(name) {
        JoinKeepsIff(s, u, name, answer);
      } else {
        JoinNameIsValid(s, u, name, answer);
      }
      if Valid(w.s) && !w.stop && u in w.s.users {
        JoinTextKeepsIff(w.s, u, AfterName(text), ask);
      }
    }
  }

  // The records and the number of their slots stay.
  ghost predicate SameShape(s: State, t: State) {
    t.users.Keys == s.users.Keys && forall v :: v in s.users ==> |t.users[v]| == |s.users[v]|
  }

  lemma {:induction false} PartTextShape(s: State, u: nat, text: string)
    ensures SameShape(s, PartText(s, u, text))
    decreases |text|
  {
    if text != "" {
      var w := PartName(s, u, text[..UpToComma(text)]);
      PartTextShape(w.s, u, AfterName(text));
    }
  }

  lemma {:induction false} PartAllShape(s: State, u: nat, i: nat)
    requires u in s.users && |s.users[u]| == NICKCHANHASHSIZE && i <= NICKCHANHASHSIZE
    ensures SameShape(s, PartAll(s, u, i))
    decreases NICKCHANHASHSIZE - i
  {
    if i < NICKCHANHASHSIZE {
      var t := if s.users[u][i].None? then s else LeftSlot(s, u, i, s.users[u][i].value);
      PartAllShape(t, u, i + 1);
    }
  }

  lemma AddedShape(s: State, c: string, u: nat)
    requires u in s.users
    ensures SameShape(s, Added(s, c, u, 0, FreeSlot(s.users[u])))
  {
  }

  lemma JoinOneShape(s: State, u: nat, name: string, answer: Answer)
    requires u in s.users
    ensures SameShape(s, JoinOne(s, u, name, answer).s)
  {
    var c := Lower(name);
    var before := if Members(s, c) == [] && c in s.chans then s.(freed := true) else s;
    var s1 := Added(before, c, u, 0, FreeSlot(s.users[u]));
    AddedShape(before, c, u);
    if answer.Keyed? {
      PartTextShape(s1, u, StripColon(name));
    }
  }

  lemma JoinNameShape(s: State, u: nat, name: string, answer: Answer)
    requires u in s.users
    ensures SameShape(s, JoinName(s, u, name, answer).s)
  {
    if |s.users[u]| == NICKCHANHASHSIZE {
      PartAllShape(s, u, 0);
    }
    JoinOneShape(s, u, name, answer);
  }

  // ---- NICK

  // The op flags of u on the list.
  function OpIn(members: seq<Member>, u: nat): Option<nat> {
    if members == [] then None
    else if members[0].person == u then Some(members[0].op)
    else OpIn(members[1..], u)
  }

  function Op(s: State, c: string, u: nat): Option<nat> {
    OpIn(Members(s, c), u)
  }

  lemma {:induction false} OpInAppend(members: seq<Member>, x: Member, u: nat)
    ensures OpIn(members + [x], u) ==
            if OpIn(members, u).Some? then OpIn(members, u) else if x.person == u then Some(x.op) else None
  {
    if members == [] {
      assert [x][1..] == [];
    } else {
      assert (members + [x])[0] == members[0] && (members + [x])[1..] == members[1..] + [x];
      OpInAppend(members[1..], x, u);
    }
  }

  lemma {:induction false} OpInRemove(members: seq<Member>, j: nat, u: nat)
    requires j < |members| && members[j].person != u
    ensures OpIn(L.RemoveAt(members, j), u) == OpIn(members, u)
  {
    if j > 0 {
      assert L.RemoveAt(members, j)[1..] == L.RemoveAt(members[1..], j - 1);
      OpInRemove(members[1..], j - 1, u);
    } else {
      assert L.RemoveAt(members, 0) == members[1..];
    }
  }

  lemma {:induction false} OpInCount(members: seq<Member>, u: nat)
    ensures OpIn(members, u).None? <==> MemberCount(members, u) == 0
    ensures FindMember(members, u).Some? ==> OpIn(members, u) == Some(members[FindMember(members, u).value].op)
  {
    if members != [] {
      OpInCount(members[1..], u);
    }
  }

  // The old record's channels are with the new one, with their flags, and nobody else's have changed.
  ghost predicate HandedOver(s: State, t: State, old_: nat, new_: nat) {
    forall c, v :: Op(t, c, v) == if v == old_ then None
                                  else if v == new_ && Op(s, c, old_).Some? then Op(s, c, old_)
                                  else Op(s, c, v)
  }

  lemma MovedIsValid(s: State, old_: nat, new_: nat, i: nat, c: string)
    requires Valid(s) && old_ in s.users && new_ in s.users && old_ != new_ && i < NICKCHANHASHSIZE
    requires s.users[old_][i] == Some(c) && s.users[new_][i] == None && On(s, c, new_) == 0
    ensures FindMember(Members(s, c), old_).Some?
    ensures var j := FindMember(Members(s, c), old_).value;
            var t := Moved(s, old_, new_, i, c, j);
            && c in s.chans && Valid(t) && t.users.Keys == s.users.Keys
            && t.users[old_] == Cleared(s.users[old_], c) && t.users[new_] == s.users[new_][i := Some(c)]
  {
    SlotHas(s.users[old_], i, c);
    assert On(s, c, old_) == 1;
    var j := FindMember(Members(s, c), old_).value;
    var op := s.chans[c][j].op;
    AddedIsValid(s, c, new_, op, i);
    var s1 := Added(s, c, new_, op, Some(i));
    DeletedIsValid(s1, c, j);
  }

  lemma MovedOps(s: State, old_: nat, new_: nat, i: nat, c: string, d: string, v: nat)
    requires Valid(s) && old_ in s.users && new_ in s.users && old_ != new_ && i < NICKCHANHASHSIZE
    requires s.users[old_][i] == Some(c) && s.users[new_][i] == None && On(s, c, new_) == 0
    ensures FindMember(Members(s, c), old_).Some? && c in s.chans
    ensures var t := Moved(s, old_, new_, i, c, FindMember(Members(s, c), old_).value);
            Op(t, d, v) == if d != c then Op(s, d, v)
                           else if v == old_ then None else if v == new_ then Op(s, c, old_) else Op(s, c, v)
  {
    MovedIsValid(s, old_, new_, i, c);
    var members := s.chans[c];
    var j := FindMember(members, old_).value;
    var t := Moved(s, old_, new_, i, c, j);
    if d == c {
      var x := Member(new_, members[j].op);
      assert (members + [x])[j] == members[j];
      OpInCount(members, old_);
      OpInCount(members, new_);
      if v == old_ {
        MemberAppend(members, x, old_);
        MemberRemove(members + [x], j, old_);
        assert On(s, c, old_) == 1;
        OpInCount(L.RemoveAt(members + [x], j), old_);
      } else {
        OpInAppend(members, x, v);
        OpInRemove(members + [x], j, v);
      }
    }
  }

  lemma OpIsOn(s: State, c: string, u: nat)
    ensures Op(s, c, u).None? <==> On(s, c, u) == 0
  {
    OpInCount(Members(s, c), u);
  }

  lemma {:induction false} MoveAllIsValid(s: State, old_: nat, new_: nat, i: nat)
    requires Valid(s) && old_ in s.users && new_ in s.users && old_ != new_ && i <= NICKCHANHASHSIZE
    requires EmptyBelow(s.users[old_], i) && forall k :: i <= k < NICKCHANHASHSIZE ==> s.users[new_][k] == None
    requires forall c :: Op(s, c, old_).None? || Op(s, c, new_).None?
    ensures var t := MoveAll(s, old_, new_, i);
            && Valid(t) && t.users.Keys == s.users.Keys && EmptyBelow(t.users[old_], NICKCHANHASHSIZE)
            && HandedOver(s, t, old_, new_)
    decreases NICKCHANHASHSIZE - i
  {
    if i == NICKCHANHASHSIZE {
      NothingLeft(s, old_, new_);
    } else if s.users[old_][i].None? {
      MoveAllIsValid(s, old_, new_, i + 1);
    } else {
      var c := s.users[old_][i].value;
      SlotHas(s.users[old_], i, c);
      assert On(s, c, old_) == 1;
      OpIsOn(s, c, old_);
      OpIsOn(s, c, new_);
      MovedIsValid(s, old_, new_, i, c);
      var t := Moved(s, old_, new_, i, c, FindMember(Members(s, c), old_).value);
      forall d, v
        ensures Op(t, d, v) == if d != c then Op(s, d, v)
                               else if v == old_ then None else if v == new_ then Op(s, c, old_) else Op(s, c, v)
      {
        MovedOps(s, old_, new_, i, c, d, v);
      }
      MoveAllIsValid(t, old_, new_, i + 1);
      HandedOn(s, t, MoveAll(t, old_, new_, i + 1), old_, new_, c);
    }
  }

  lemma HandedOn(s: State, t: State, r: State, old_: nat, new_: nat, c: string)
    requires old_ != new_ && Op(s, c, old_).Some? && HandedOver(t, r, old_, new_)
    requires forall d, v :: Op(t, d, v) == if d != c then Op(s, d, v)
                            else if v == old_ then None else if v == new_ then Op(s, c, old_) else Op(s, c, v)
    ensures HandedOver(s, r, old_, new_)
  {
    forall d, v
      ensures Op(r, d, v) == if v == old_ then None
                             else if v == new_ && Op(s, d, old_).Some? then Op(s, d, old_) else Op(s, d, v)
    {
      assert Op(t, d, old_) == if d == c then None else Op(s, d, old_);
      assert Op(t, d, v) == if d != c then Op(s, d, v)
                            else if v == old_ then None else if v == new_ then Op(s, c, old_) else Op(s, c, v);
    }
  }

  lemma NothingLeft(s: State, old_: nat, new_: nat)
    requires Valid(s) && old_ in s.users && EmptyBelow(s.users[old_], NICKCHANHASHSIZE)
    ensures HandedOver(s, s, old_, new_)
  {
    forall c
      ensures Op(s, c, old_) == None
    {
      NoneCount(s.users[old_], c);
      assert SlotCount(s.users[old_], c) == On(s, c, old_);
      OpInCount(Members(s, c), old_);
    }
  }

  /** A nick change keeps the lists in step, and every membership with its op flags. */
  lemma NickKeepsMemberships(s: State, u: nat, to: nat)
    requires Valid(s) && u in s.users && to !in s.users
    ensures var t := Step(s, Nick(u, to));
            && Valid(t) && t.users.Keys == s.users.Keys - {u} + {to}
            && (forall c :: Op(t, c, to) == Op(s, c, u))
            && (forall c, v :: v != u && v != to ==> Op(t, c, v) == Op(s, c, v))
  {
    var s1 := s.(users := s.users[to := EMPTY]);
    forall v, c | v in s1.users
      ensures SlotCount(s1.users[v], c) == On(s1, c, v) <= 1
    {
      assert On(s1, c, v) == On(s, c, v);
      if v == to {
        NoneCount(EMPTY, c);
      }
    }
    assert forall v, c :: On(s1, c, v) == On(s, c, v);
    forall c
      ensures Op(s1, c, to) == None
    {
      assert On(s1, c, to) == 0;
      OpIsOn(s1, c, to);
    }
    MoveAllIsValid(s1, u, to, 0);
    var t := MoveAll(s1, u, to, 0);
    RemovedIsValid(t, u);
    forall c, v | v != u
      ensures Op(Gone(t, u), c, v) == if v == to then Op(s, c, u) else Op(s, c, v)
    {
      assert Op(t, c, v) == if v == to && Op(s1, c, u).Some? then Op(s1, c, u) else Op(s1, c, v);
    }
  }

  // ---- runs

  predicate Clean(s: State, e: Event) {
    e.Join? && e.user in s.users ==> JoinsFit(s, e.user, StripColon(e.text), e.ask)
  }

  predicate CleanRun(s: State, events: seq<Event>)
    decreases |events|
  {
    events == [] || (Clean(s, events[0]) && CleanRun(Step(s, events[0]), events[1..]))
  }

  // The lists are in step throughout, and after each name of a JOIN.
  ghost predicate StaysInStep(s: State, events: seq<Event>)
    decreases |events|
  {
    && Valid(s)
    && (events == [] || (KeepsStep(s, events[0]) && StaysInStep(Step(s, events[0]), events[1..])))
  }

  ghost predicate KeepsStep(s: State, e: Event) {
    && Valid(Step(s, e))
    && (e.Join? && e.user in s.users ==> NamesKeep(s, e.user, StripColon(e.text), e.ask))
  }

  function Run(s: State, events: seq<Event>): State
    decreases |events|
  {
    if events == [] then s else Run(Step(s, events[0]), events[1..])
  }

  lemma StepKeepsIff(s: State, e: Event)
    requires Valid(s)
    ensures KeepsStep(s, e) <==> Clean(s, e)
  {
    match e
    case Connect(u) =>
      var s' := Step(s, e);
      forall v, c
        ensures On(s', c, v) == On(s, c, v) && (v !in s.users ==> SlotCount(EMPTY, c) == 0)
      {
        NoneCount(EMPTY, c);
      }
    case Join(u, text, ask) =>
      if u in s.users {
        JoinTextKeepsIff(s, u, StripColon(text), ask);
      }
    case Part(u, text) =>
      PartTextIsValid(s, u, StripColon(text));
    case Quit(u) =>
      if u in s.users {
        PartAllIsValid(s, u, 0);
        RemovedIsValid(PartAll(s, u, 0), u);
      }
    case Nick(u, to) =>
      if u in s.users && to !in s.users {
        NickKeepsMemberships(s, u, to);
      }
    case MassKick(name) => KickAllIsValid(s, Lower(name));
  }

  /** A run of connections, JOINs, PARTs, kicks, QUITs, NICKs and mass kicks keeps the member lists and the slots in
      step throughout exactly if each name joined in it fits. */
  lemma {:induction false} MembershipHolds(s: State, events: seq<Event>)
    requires Valid(s)
    ensures StaysInStep(s, events) <==> CleanRun(s, events)
    ensures CleanRun(s, events) ==> Valid(Run(s, events))
    decreases |events|
  {
    if events != [] {
      StepKeepsIff(s, events[0]);
      if Clean(s, events[0]) {
        MembershipHolds(Step(s, events[0]), events[1..]);
      }
    }
  }

  const START := State(map[], map[], false)

  /** So it is from an empty network on. */
  lemma MembershipFromStart(events: seq<Event>)
    ensures StaysInStep(START, events) <==> CleanRun(START, events)
    ensures CleanRun(START, events) ==> Valid(Run(START, events))
  {
    MembershipHolds(START, events);
  }

  lemma JoinTextOfName(s: State, u: nat, name: string, ask: (State, string) -> Answer)
    requires u in s.users && Joins(name) && PartsItself(name)
    ensures JoinText(s, u, StripColon(name), ask) == JoinOne(s, u, name, ask(s, name)).s
  {
    UpToCommaAll(name);
    assert name[..|name|] == name && name[|name|..] == "";
    var w := JoinName(s, u, name, ask(s, name));
    assert u in w.s.users ==> JoinText(w.s, u, "", ask) == w.s;
  }

  /** A second JOIN of the same channel puts lists and slots out of step. */
  lemma JoinTwiceExample(s: State, name: string, ask: (State, string) -> Answer)
    requires s == Step(START, Connect(0)) && name == "#a" && forall t :: ask(t, name) == Stay(0)
    ensures var once := Step(s, Join(0, name, ask)); Valid(once) && !Valid(Step(once, Join(0, name, ask)))
  {
    StepKeepsIff(START, Connect(0));
    JoinTextOfName(s, 0, name, ask);
    JoinStays(s, 0, name, Stay(0));
    var once := Step(s, Join(0, name, ask));
    JoinTextOfName(once, 0, name, ask);
    JoinKeepsIff(once, 0, name, Stay(0));
  }

  /** A PART of a name of 33 characters writes behind the buffer. */
  lemma PartOverrunExample(s: State, u: nat, name: string)
    requires name == "#" + Repeat('a', 32)
    ensures !PartInside(s, u, StripColon(name))
  {
    UpToCommaAll(name);
  }

  // ---- chanserv.c

  class Network {
    var users: map<nat, Slots>
    var chans: map<string, seq<Member>>
    var freed: bool

    function TheState(): State
      reads this
    {
      State(users, chans, freed)
    }

    constructor ()
      ensures TheState() == START
    {
      users, chans, freed := map[], map[], false;
    }

    method GetChanUserData(c: string, u: nat) returns (j: Option<nat>)
      requires c in chans
      ensures j == FindMember(chans[c], u)
    {
      var members := chans[c];
      var i := 0;
      assert members[0..] == members;
      while i < |members|
        invariant i <= |members|
        invariant FindMember(members, u)
               == match FindMember(members[i..], u) case None => None case Some(k) => Some(i + k)
      {
        if members[i].person == u {
          return Some(i);
        }
        assert members[i..][1..] == members[i + 1..];
        i := i + 1;
      }
      return None;
    }

    // The search for a free slot.
    method TakeSlot(u: nat, c: string)
      requires u in users
      modifies this`users
      ensures var f := FreeSlot(old(users)[u]);
              users == if f.Some? then old(users)[u := old(users)[u][f.value := Some(c)]] else old(users)
    {
      var slots := users[u];
      var a := 0;
      assert slots[0..] == slots;
      while a < |slots|
        invariant a <= |slots| && users == old(users) && slots == users[u]
        invariant FreeSlot(slots) == match FreeSlot(slots[a..]) case None => None case Some(k) => Some(a + k)
      {
        if slots[a] == None {
          users := users[u := slots[a := Some(c)]];
          return;
        }
        assert slots[a..][1..] == slots[a + 1..];
        a := a + 1;
      }
    }

    /** delChanUser, with cleaning. */
    method DelChanUser(c: string, j: nat)
      requires c in chans && j < |chans[c]|
      modifies this`users, this`chans
      ensures TheState() == Deleted(old(TheState()), c, j)
    {
      var person := chans[c][j].person;
      var rest := chans[c][..j] + chans[c][j + 1..];
      if person in users {
        var slots := users[person];
        for i := 0 to |slots|
          invariant |slots| == |old(users)[person]|
          invariant forall k :: 0 <= k < |slots| ==>
            (slots[k] == if k < i && old(users)[person][k] == Some(c) then None else old(users)[person][k])
        {
          if slots[i] == Some(c) {
            slots := slots[i := None];
          }
        }
        assert slots == Cleared(old(users)[person], c);
        users := users[person := slots];
      }
      if rest == [] {
        chans := chans - {c};
      } else {
        chans := chans[c := rest];
      }
    }

    // One name of a PART or KICK that fits; true where remUserFromChan returns.
    method PartChan(u: nat, c: string) returns (stop: bool)
      modifies this`users, this`chans
      ensures Went(TheState(), stop) == PartOne(old(TheState()), u, c)
    {
      if c !in chans {
        return false;
      }
      var person := GetChanUserData(c, u);
      if person.None? {
        return true;
      }
      DelChanUser(c, person.value);
      return false;
    }

    // The loop both commands read a name with: what fits of it goes to the buffer.
    method ReadName(channel: string, at: nat, chan: array<char>) returns (a: nat)
      requires at <= |channel| && chan.Length == CHANLEN
      modifies chan
      ensures a == UpToComma(channel[at..]) && at + a <= |channel|
      ensures a < CHANLEN ==> chan[..a] == channel[at..at + a]
    {
      a := 0;
      while at + a < |channel| && channel[at + a] != ','
        invariant at + a <= |channel| && UpToComma(channel[at..]) == a + UpToComma(channel[at + a..])
        invariant forall i :: 0 <= i < a && i < CHANLEN - 1 ==> chan[i] == channel[at + i]
      {
        assert channel[at + a..][1..] == channel[at + a + 1..];
        if a < CHANLEN - 1 {
          chan[a] := channel[at + a];
        }
        a := a + 1;
      }
    }

    lemma NextName(channel: string, at: nat, a: nat)
      requires at < |channel| && a == UpToComma(channel[at..])
      ensures channel[at..][..a] == channel[at..at + a]
      ensures AfterName(channel[at..]) ==
              if a >= CHANLEN || at + a == |channel| then channel[at + a..] else channel[at + a + 1..]
    {
      assert channel[at..][a..] == channel[at + a..];
      if at + a < |channel| {
        assert channel[at..][a + 1..] == channel[at + a + 1..];
      }
    }

    /** remUserFromChan; `inside` unless a terminator is written behind the buffer. */
    method RemUserFromChan(u: nat, channel: string) returns (inside: bool)
      modifies this`users, this`chans
      ensures TheState() == PartText(old(TheState()), u, StripColon(channel))
      ensures inside <==> PartInside(old(TheState()), u, StripColon(channel))
    {
      var chan := new char[CHANLEN];
      var text := StripColon(channel);
      var at := 0;
      inside := true;
      assert text[0..] == text;
      while at < |text|
        invariant at <= |text|
        invariant PartText(old(TheState()), u, text) == PartText(TheState(), u, text[at..])
        invariant PartInside(old(TheState()), u, text) <==> inside && PartInside(TheState(), u, text[at..])
        decreases |text| - at
      {
        var a := ReadName(text, at, chan);
        NextName(text, at, a);
        at := if a >= CHANLEN || at + a == |text| then at + a else at + a + 1;
        if a >= chan.Length {
          inside := false;
        } else {
          var stop := PartBuffer(u, chan, a);
          if stop {
            return;
          }
        }
      }
    }

    // The body of remUserFromChan's loop, on a name that fits the buffer.
    method PartBuffer(u: nat, chan: array<char>, a: nat) returns (stop: bool)
      requires a < chan.Length == CHANLEN
      modifies this`users, this`chans, chan
      ensures Went(TheState(), stop) == PartName(old(TheState()), u, old(chan[..a]))
    {
      ghost var name := chan[..a];
      chan[a] := '\0';
      assert chan[..a] == name;
      if chan[0] == '+' {
        return false;
      }
      stop := PartChan(u, Lower(chan[..a]));
    }

    // One slot of remFromAllChans.
    method LeaveSlot(u: nat, i: nat)
      requires u in users && |users[u]| == NICKCHANHASHSIZE && i < NICKCHANHASHSIZE
      modifies this`users, this`chans
      ensures u in users && |users[u]| == NICKCHANHASHSIZE
      ensures TheState() == match old(users)[u][i]
                            case None => old(TheState())
                            case Some(c) => LeftSlot(old(TheState()), u, i, c)
    {
      if users[u][i].Some? {
        var c := users[u][i].value;
        if c in chans {
          var ctmp := GetChanUserData(c, u);
          if ctmp.Some? {
            DelChanUser(c, ctmp.value);
          }
        }
        users := users[u := users[u][i := None]];
      }
    }

    /** remFromAllChans. */
    method RemFromAllChans(u: nat)
      requires u in users && |users[u]| == NICKCHANHASHSIZE
      modifies this`users, this`chans
      ensures TheState() == PartAll(old(TheState()), u, 0)
    {
      var i := 0;
      while i < NICKCHANHASHSIZE
        invariant i <= NICKCHANHASHSIZE && u in users && |users[u]| == NICKCHANHASHSIZE
        invariant PartAll(old(TheState()), u, 0) == PartAll(TheState(), u, i)
      {
        LeaveSlot(u, i);
        i := i + 1;
      }
    }

    // The new member, on a new or an existing channel, and the slot; j is where it is listed.
    method TakeIn(u: nat, c: string) returns (j: nat, isNew: bool)
      requires u in users
      modifies this
      ensures var s := old(TheState());
              && j == |Members(s, c)| && isNew == (Members(s, c) == [])
              && TheState()
                 == Added(if isNew && c in s.chans then s.(freed := true) else s, c, u, 0, FreeSlot(s.users[u]))
    {
      j, isNew := 0, true;
      if c in chans && chans[c] != [] {
        j, isNew := |chans[c]|, false;
        chans := chans[c := chans[c] + [Member(u, 0)]];
      } else {
        freed := freed || c in chans;
        chans := chans[c := [Member(u, 0)]];
      }
      TakeSlot(u, c);
      assert [] + [Member(u, 0)] == [Member(u, 0)];
    }

    /** The body of addUserToChan's loop for a name that is neither 0 nor +. */
    method JoinChan(u: nat, name: string, answer: Answer) returns (stop: bool)
      requires u in users
      modifies this
      ensures Went(TheState(), stop) == JoinOne(old(TheState()), u, name, answer)
    {
      var c := Lower(name);
      var j, isNew := TakeIn(u, c);
      match answer
      case Akick =>
        DelChanUser(c, j);
        return true;
      case BanKick =>
        var channick := GetChanUserData(c, u);
        MemberRemove(chans[c], j, u);
        DelChanUser(c, channick.value);
        return true;
      case Keyed =>
        if isNew {
          var _ := RemUserFromChan(u, name);
          return true;
        }
        return false;
      case Stay(flags) =>
        chans := chans[c := chans[c][j := Member(u, flags)]];
        return false;
    }

    // The body of addUserToChan's loop, on a name that fits the buffer.
    method JoinBuffer(u: nat, chan: array<char>, a: nat, answer: Answer) returns (stop: bool)
      requires u in users && |users[u]| == NICKCHANHASHSIZE && a < chan.Length == CHANLEN
      modifies this, chan
      ensures Went(TheState(), stop) == JoinName(old(TheState()), u, old(chan[..a]), answer)
    {
      ghost var name := chan[..a];
      chan[a] := '\0';
      assert chan[..a] == name;
      if chan[0] == '0' {
        RemFromAllChans(u);
        return false;
      }
      if chan[0] == '+' {
        return false;
      }
      stop := JoinChan(u, chan[..a], answer);
    }

    /** addUserToChan. */
    method AddUserToChan(u: nat, channel: string, ask: (State, string) -> Answer)
      requires u in users && |users[u]| == NICKCHANHASHSIZE
      modifies this
      ensures TheState() == JoinText(old(TheState()), u, StripColon(channel), ask)
      ensures old(Valid(TheState()) && JoinsFit(TheState(), u, StripColon(channel), ask)) ==> Valid(TheState())
    {
      var chan := new char[CHANLEN];
      var text := StripColon(channel);
      var at := 0;
      if Valid(TheState()) && JoinsFit(TheState(), u, text, ask) {
        JoinTextKeepsIff(TheState(), u, text, ask);
      }
      assert text[0..] == text;
      while at < |text|
        invariant at <= |text| && u in users && |users[u]| == NICKCHANHASHSIZE
        invariant JoinText(old(TheState()), u, text, ask) == JoinText(TheState(), u, text[at..], ask)
        decreases |text| - at
      {
        var a := ReadName(text, at, chan);
        NextName(text, at, a);
        ghost var name := text[at..at + a];
        var answer := ask(TheState(), text[at..]);
        JoinNameShape(TheState(), u, name, answer);
        at := if a >= CHANLEN || at + a == |text| then at + a else at + a + 1;
        if a < CHANLEN {
          var stop := JoinBuffer(u, chan, a, answer);
          if stop {
            return;
          }
        }
      }
    }

    /** The loop of cs_mkick. */
    method MassKick(name: string)
      requires Valid(TheState())
      modifies this`users, this`chans
      ensures Valid(TheState()) && TheState() == KickAll(old(TheState()), Lower(name))
    {
      var c := Lower(name);
      KickAllIsValid(TheState(), c);
      while c in chans && chans[c] != []
        invariant Valid(TheState()) && KickAll(old(TheState()), c) == KickAll(TheState(), c)
        decreases |Members(TheState(), c)|
      {
        DeletedIsValid(TheState(), c, 0);
        DelChanUser(c, 0);
      }
    }

    // One slot of changeNickOnAllChans.
    method MoveSlot(oldnick: nat, newnick: nat, i: nat, c: string)
      requires oldnick in users && newnick in users && oldnick != newnick && i < NICKCHANHASHSIZE
      requires |users[oldnick]| == NICKCHANHASHSIZE == |users[newnick]|
      modifies this`users, this`chans
      ensures oldnick in users && newnick in users && |users[oldnick]| == NICKCHANHASHSIZE == |users[newnick]|
      ensures var s := old(TheState());
              TheState() == match FindMember(Members(s, c), oldnick)
                            case None => s
                            case Some(j) => Moved(s, oldnick, newnick, i, c, j)
    {
      if c in chans {
        var tmpnick := GetChanUserData(c, oldnick);
        if tmpnick.Some? {
          var op := chans[c][tmpnick.value].op;
          users := users[newnick := users[newnick][i := Some(c)]];
          chans := chans[c := chans[c] + [Member(newnick, op)]];
          DelChanUser(c, tmpnick.value);
        }
      }
    }

    /** changeNickOnAllChans. */
    method ChangeNickOnAllChans(oldnick: nat, newnick: nat)
      requires oldnick in users && newnick in users && oldnick != newnick
      requires |users[oldnick]| == NICKCHANHASHSIZE == |users[newnick]|
      modifies this`users, this`chans
      ensures TheState() == MoveAll(old(TheState()), oldnick, newnick, 0)
    {
      var i := 0;
      while i < NICKCHANHASHSIZE
        invariant i <= NICKCHANHASHSIZE && oldnick in users && newnick in users
        invariant |users[oldnick]| == NICKCHANHASHSIZE == |users[newnick]|
        invariant MoveAll(old(TheState()), oldnick, newnick, 0) == MoveAll(TheState(), oldnick, newnick, i)
      {
        if users[oldnick][i].Some? {
          MoveSlot(oldnick, newnick, i, users[oldnick][i].value);
        }
        i := i + 1;
      }
    }
  }
}
