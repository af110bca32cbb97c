/** memoserv.c: what READ, SAVE, DELETE, CLEAN, UNSEND and a send do to the memos, told from box and argument. */
module MemoOutcomes {
  import opened Text
  import opened L = ListMacros
  import opened MemoServ

  // The memo of that number in the box.
  predicate HasNumber(s: State, u: nat, i: int, id: nat)
    requires u in s.boxes
  {
    0 < i <= |s.boxes[u].memos| && s.boxes[u].memos[i - 1] == id
  }

  // What DELETE marks. `new` takes every memo, as `all` does.
  predicate ToDelete(s: State, u: nat, arg: string, id: nat)
    requires u in s.boxes
  {
    if SameName(arg, "all") || SameName(arg, "new") then id in s.boxes[u].memos
    else if SameName(arg, "old") || SameName(arg, "read") then
      id in s.boxes[u].memos && id in s.memos && !s.memos[id].unread
    else HasNumber(s, u, Atoi(arg), id)
  }

  predicate ToRead(s: State, u: nat, arg: string, id: nat)
    requires u in s.boxes
  {
    if SameName(arg, "all") then id in s.boxes[u].memos else HasNumber(s, u, Atoi(arg), id)
  }

  predicate ToUnsend(s: State, u: nat, arg: string, id: nat)
    requires u in s.boxes
  {
    if SameName(arg, "all") then id in s.boxes[u].sent
    else 0 < Atoi(arg) <= |s.boxes[u].sent| && s.boxes[u].sent[Atoi(arg) - 1] == id
  }

  // The same memos in the same boxes.
  ghost predicate SameMail(s: State, t: State) {
    && Valid(t) && t.memos.Keys == s.memos.Keys && t.boxes.Keys == s.boxes.Keys
    && forall v :: v in s.boxes ==> t.boxes[v].memos == s.boxes[v].memos
  }

  lemma {:induction false} ReadEachMarks(s: State, ids: seq<nat>)
    requires Valid(s) && Live(s, ids)
    ensures var t := ReadEach(s, ids);
            && SameMail(s, t)
            && forall x :: x in s.memos ==>
                 t.memos[x] == if x in ids then s.memos[x].(unread := false, sentOn := None) else s.memos[x]
    decreases |ids|
  {
    if ids != [] {
      UnlinkedIsValid(s, ids[0], s.memos[ids[0]].(unread := false));
      LiveTail(s, ids);
      ReadEachMarks(ReadOne(s, ids[0]), ids[1..]);
    }
  }

  lemma {:induction false} DeleteEachMarks(s: State, ids: seq<nat>)
    requires Valid(s) && Live(s, ids)
    ensures var t := DeleteEach(s, ids);
            && SameMail(s, t)
            && forall x :: x in s.memos ==>
                 t.memos[x] == if x in ids then s.memos[x].(deleted := true, sentOn := None) else s.memos[x]
    decreases |ids|
  {
    if ids != [] {
      UnlinkedIsValid(s, ids[0], s.memos[ids[0]].(deleted := true));
      LiveTail(s, ids);
      DeleteEachMarks(DeleteOne(s, ids[0]), ids[1..]);
    }
  }

  lemma {:induction false} DeleteEachReadMarks(s: State, ids: seq<nat>)
    requires Valid(s) && Live(s, ids)
    ensures var t := DeleteEachRead(s, ids);
            && SameMail(s, t)
            && forall x :: x in s.memos ==>
                 t.memos[x] == if x in ids && !s.memos[x].unread then s.memos[x].(deleted := true, sentOn := None)
                               else s.memos[x]
    decreases |ids|
  {
    if ids != [] {
      assert MemoOk(s, ids[0]);
      if !s.memos[ids[0]].unread {
        FlaggedIsValid(s, ids[0], s.memos[ids[0]].(deleted := true));
      }
      LiveTail(s, ids);
      DeleteEachReadMarks(DeleteRead(s, ids[0]), ids[1..]);
    }
  }

  lemma PickIs(s: State, u: nat, i: int)
    requires Valid(s) && u in s.boxes
    ensures forall x :: x in Pick(s, u, i) <==> HasNumber(s, u, i, x)
  {
    assert BoxOk(s, u);
  }

  /** DELETE marks exactly the memos that its argument names, takes them off their sent lists and changes nothing else
      of any memo. */
  lemma DeleteMarks(s: State, u: nat, arg: string)
    requires Valid(s) && u in s.boxes
    ensures var t := Step(s, Delete(u, arg));
            && SameMail(s, t)
            && forall x :: x in s.memos ==>
                 t.memos[x] == if ToDelete(s, u, arg, x) then s.memos[x].(deleted := true, sentOn := None)
                               else s.memos[x]
  {
    OwnLists(s, u);
    var ids := s.boxes[u].memos;
    if SameName(arg, "all") || SameName(arg, "new") {
      DeleteEachMarks(s, ids);
    } else if SameName(arg, "old") || SameName(arg, "read") {
      DeleteEachReadMarks(s, ids);
    } else {
      PickIsLive(s, u, Atoi(arg));
      PickIs(s, u, Atoi(arg));
      DeleteEachMarks(s, Pick(s, u, Atoi(arg)));
    }
  }

  /** READ clears the unread mark of exactly the memos that its argument names, and takes them off their sent lists. */
  lemma ReadMarks(s: State, u: nat, arg: string)
    requires Valid(s) && u in s.boxes
    ensures var t := Step(s, Read(u, arg));
            && SameMail(s, t)
            && forall x :: x in s.memos ==>
                 t.memos[x] == if ToRead(s, u, arg, x) then s.memos[x].(unread := false, sentOn := None)
                               else s.memos[x]
  {
    OwnLists(s, u);
    if SameName(arg, "all") {
      ReadEachMarks(s, s.boxes[u].memos);
    } else {
      PickIsLive(s, u, Atoi(arg));
      PickIs(s, u, Atoi(arg));
      ReadEachMarks(s, Pick(s, u, Atoi(arg)));
    }
  }

  /** SAVE marks exactly the memo of its number. */
  lemma SaveMarks(s: State, u: nat, arg: string)
    requires Valid(s) && u in s.boxes
    ensures var t := Step(s, Save(u, arg));
            && SameMail(s, t)
            && forall x :: x in s.memos ==>
                 t.memos[x] == if HasNumber(s, u, Atoi(arg), x) then s.memos[x].(saved := true) else s.memos[x]
  {
    SavesIsValid(s, u, Atoi(arg));
    PickIsLive(s, u, Atoi(arg));
    PickIs(s, u, Atoi(arg));
    var p := Pick(s, u, Atoi(arg));
    if p != [] {
      assert p[0] in p;
    }
  }

  // t has lost the memos of `gone`, and kept the others as they were.
  ghost predicate Lost(s: State, t: State, gone: set<nat>) {
    && Valid(t) && t.boxes.Keys == s.boxes.Keys
    && t.memos == s.memos - gone
  }

  lemma {:induction false} CleanEachLoses(s: State, u: nat, ids: seq<nat>)
    requires Valid(s) && u in s.boxes && OwnMemos(s, u, ids)
    ensures var t := CleanEach(s, u, ids);
            forall x :: x in t.memos ==> x in s.memos && t.memos[x] == s.memos[x]
    decreases |ids|
  {
    if ids != [] {
      CleanOneIsValid(s, u, ids);
      CleanEachLoses(CleanOne(s, u, ids[0]), u, ids[1..]);
    }
  }

  /** CLEAN erases exactly the memos of the box that are marked deleted. */
  lemma CleanLoses(s: State, u: nat)
    requires Valid(s) && u in s.boxes
    ensures Lost(s, Step(s, Clean(u)), set x | x in s.memos && s.memos[x].box == u && s.memos[x].deleted)
  {
    OwnLists(s, u);
    CleanEachIsValid(s, u, s.boxes[u].memos);
    CleanEachLoses(s, u, s.boxes[u].memos);
  }

  /** DELETE and then CLEAN erase exactly the memos of the box that were marked before or that the argument names. */
  lemma DeleteThenClean(s: State, u: nat, arg: string)
    requires Valid(s) && u in s.boxes
    ensures var t := Step(Step(s, Delete(u, arg)), Clean(u));
            && Valid(t)
            && forall x :: x in t.memos <==>
                 x in s.memos && !(s.memos[x].box == u && (s.memos[x].deleted || ToDelete(s, u, arg, x)))
  {
    DeleteMarks(s, u, arg);
    var t := Step(s, Delete(u, arg));
    CleanLoses(t, u);
    forall x | x in s.memos
      ensures t.memos[x].box == s.memos[x].box
      ensures t.memos[x].deleted <==> s.memos[x].deleted || ToDelete(s, u, arg, x)
    {
    }
  }

  // What is selected of a sent list.
  function Selected(sent: seq<nat>, which: Which): seq<nat> {
    match which
    case All => sent
    case Index(i) => if 0 < i <= |sent| then [sent[i - 1]] else []
    case _ => []
  }

  lemma SelectedIs(s: State, u: nat, which: Which)
    requires u in s.boxes
    ensures Unsends(s, u, which) == UnsendEach(s, Selected(s.boxes[u].sent, which)).s
  {
  }

  lemma SelectedLive(s: State, sent: seq<nat>, which: Which)
    requires Live(s, sent)
    ensures Live(s, Selected(sent, which))
  {
    if which.Index? && 0 < which.i <= |sent| {
      assert [sent[which.i - 1]][..0] == [];
    }
  }

  lemma SelectedIsNamed(s: State, u: nat, arg: string, x: nat)
    requires u in s.boxes
    ensures x in Selected(s.boxes[u].sent, ReadWhich(arg)) <==> ToUnsend(s, u, arg, x)
  {
  }

  lemma SelectedLoses(s: State, u: nat, which: Which)
    requires Valid(s) && u in s.boxes
    ensures Lost(s, Unsends(s, u, which), set x | x in s.memos && x in Selected(s.boxes[u].sent, which))
  {
    var ids := Selected(s.boxes[u].sent, which);
    OwnLists(s, u);
    SelectedIs(s, u, which);
    SelectedLive(s, s.boxes[u].sent, which);
    UnsendEachIsValid(s, ids);
    SweptLoses(s, UnsendEach(s, ids).s, ids);
  }

  /** UNSEND erases exactly the memos of the sent list that its argument names. */
  lemma UnsendLoses(s: State, u: nat, arg: string)
    requires Valid(s) && u in s.boxes
    ensures Lost(s, Step(s, Unsend(u, arg)), set x | x in s.memos && ToUnsend(s, u, arg, x))
  {
    var ids := Selected(s.boxes[u].sent, ReadWhich(arg));
    SelectedLoses(s, u, ReadWhich(arg));
    forall x
      ensures x in ids <==> ToUnsend(s, u, arg, x)
    {
      SelectedIsNamed(s, u, arg, x);
    }
    assert (set x | x in s.memos && ToUnsend(s, u, arg, x)) == (set x | x in s.memos && x in ids);
  }

  lemma SweptLoses(s: State, t: State, ids: seq<nat>)
    requires Valid(t) && t.boxes.Keys == s.boxes.Keys
    requires forall x :: x in t.memos <==> x in s.memos && x !in ids
    requires forall x :: x in t.memos ==> t.memos[x] == s.memos[x]
    ensures Lost(s, t, set x | x in s.memos && x in ids)
  {
  }

  /** DELETE NEW marks only memos that have not been read yet, as its reply says, exactly if the box holds no memo that
      has been read and is not marked already. */
  lemma DeleteNewIff(s: State, u: nat, arg: string)
    requires Valid(s) && u in s.boxes && SameName(arg, "new")
    ensures var t := Step(s, Delete(u, arg));
            (forall x :: x in s.memos && x in t.memos && t.memos[x].deleted && !s.memos[x].deleted ==>
               s.memos[x].unread)
            <==> forall x :: x in s.boxes[u].memos && x in s.memos ==> s.memos[x].unread || s.memos[x].deleted
  {
    OwnLists(s, u);
    DeleteMarks(s, u, arg);
  }

  /** A memo that has been read is marked by DELETE NEW. */
  lemma DeleteNewExample(m: Sending, all: string, new_: string)
    requires m == Sending(None, 1, false, false, false) && all == "all" && new_ == "new"
    ensures var t := Run(START, [NewNick(1, 10), Send(m), Read(1, all), Delete(1, new_)]);
            0 in t.memos && !t.memos[0].unread && t.memos[0].deleted
  {
    var a := Step(START, NewNick(1, 10));
    var b := Step(a, Send(m));
    var c := Step(b, Read(1, all));
    RunFour(START, NewNick(1, 10), Send(m), Read(1, all), Delete(1, new_));
    assert [NewNick(1, 10)] + ([Send(m)] + ([Read(1, all)] + ([Delete(1, new_)] + [])))
        == [NewNick(1, 10), Send(m), Read(1, all), Delete(1, new_)];
    StepKeepsIff(START, NewNick(1, 10));
    StepKeepsIff(a, Send(m));
    ReadMarks(b, 1, all);
    DeleteMarks(c, 1, new_);
    assert b.boxes[1].memos == [0];
  }

  // ---- what a send does

  // The box takes the memo: it is open or the sender overrides, the sender is not blocked, and there is room or the
  // sender needs none.
  predicate Takes(b: Box, m: Sending) {
    (!b.nomemo || m.override) && !(m.from.Some? && m.blocked) && (b.memocnt < b.max || m.servop)
  }

  /** A memo to a registration that does not forward arrives at the head of its box and of the sender's list, unread,
      and nothing else changes; or the box does not take it, and nothing changes. */
  lemma SendArrives(s: State, m: Sending)
    requires Valid(s) && m.to in s.boxes && s.boxes[m.to].forward.None? && (m.from.Some? ==> m.from.value in s.boxes)
    ensures s.next !in s.memos
    ensures var t := Step(s, Send(m));
            if !Takes(s.boxes[m.to], m) then t == s
            else
              && Valid(t)
              && t.memos == s.memos[s.next := Memo(Some(m.to), m.to, m.from, true, false, false, false)]
              && t.boxes.Keys == s.boxes.Keys
              && forall v :: v in s.boxes ==>
                   && t.boxes[v].memos == (if v == m.to then [s.next] else []) + s.boxes[v].memos
                   && t.boxes[v].sent == (if m.from == Some(v) then [s.next] else []) + s.boxes[v].sent
  {
    NextIsFree(s);
    SendKeepsIff(s, m);
    assert forall v :: v in s.boxes ==> [] + s.boxes[v].memos == s.boxes[v].memos;
    assert forall v :: v in s.boxes ==> [] + s.boxes[v].sent == s.boxes[v].sent;
  }

  // Boxes may go or lose memos; what they are set to stays.
  ghost predicate Shrinks(s: State, t: State) {
    forall v :: v in t.boxes ==>
      && v in s.boxes && t.boxes[v].memocnt <= s.boxes[v].memocnt
      && t.boxes[v].max == s.boxes[v].max && t.boxes[v].nomemo == s.boxes[v].nomemo
  }

  lemma ShrinksOn(s: State, t: State, r: State)
    requires Shrinks(s, t) && Shrinks(t, r)
    ensures Shrinks(s, r)
  {
  }

  lemma UnlinkShrinks(s: State, id: nat)
    requires id in s.memos
    ensures var t := Unlinked(s, id);
            && Shrinks(s, t) && t.boxes.Keys == s.boxes.Keys && id in t.memos
            && t.memos[id].realto == s.memos[id].realto
  {
  }

  lemma UnlinkedShrinks(s: State, id: nat, m: Memo)
    requires id in s.memos
    ensures var t := Unlinked(s.(memos := s.memos[id := m]), id);
            Shrinks(s, t) && t.boxes.Keys == s.boxes.Keys && id in t.memos
  {
    UnlinkShrinks(s.(memos := s.memos[id := m]), id);
  }

  lemma ErasedShrinks(s: State, u: nat, id: nat)
    requires id in s.memos && u in s.boxes
    ensures Shrinks(s, Erased(s, u, id)) && Erased(s, u, id).boxes.Keys == s.boxes.Keys
  {
  }

  lemma {:induction false} ReadEachShrinks(s: State, ids: seq<nat>)
    ensures Shrinks(s, ReadEach(s, ids)) && ReadEach(s, ids).boxes.Keys == s.boxes.Keys
    decreases |ids|
  {
    if ids != [] && ids[0] in s.memos {
      UnlinkedShrinks(s, ids[0], s.memos[ids[0]].(unread := false));
      ReadEachShrinks(ReadOne(s, ids[0]), ids[1..]);
      ShrinksOn(s, ReadOne(s, ids[0]), ReadEach(s, ids));
    }
  }

  lemma {:induction false} DeleteEachShrinks(s: State, ids: seq<nat>)
    ensures Shrinks(s, DeleteEach(s, ids)) && DeleteEach(s, ids).boxes.Keys == s.boxes.Keys
    decreases |ids|
  {
    if ids != [] && ids[0] in s.memos {
      UnlinkedShrinks(s, ids[0], s.memos[ids[0]].(deleted := true));
      DeleteEachShrinks(DeleteOne(s, ids[0]), ids[1..]);
      ShrinksOn(s, DeleteOne(s, ids[0]), DeleteEach(s, ids));
    }
  }

  lemma {:induction false} DeleteEachReadShrinks(s: State, ids: seq<nat>)
    ensures DeleteEachRead(s, ids).boxes == s.boxes
    decreases |ids|
  {
    if ids != [] && ids[0] in s.memos {
      DeleteEachReadShrinks(DeleteRead(s, ids[0]), ids[1..]);
    }
  }

  lemma {:induction false} CleanEachShrinks(s: State, u: nat, ids: seq<nat>)
    requires u in s.boxes
    ensures Shrinks(s, CleanEach(s, u, ids)) && CleanEach(s, u, ids).boxes.Keys == s.boxes.Keys
    decreases |ids|
  {
    if ids != [] && ids[0] in s.memos {
      ErasedShrinks(s, u, ids[0]);
      CleanEachShrinks(CleanOne(s, u, ids[0]), u, ids[1..]);
      ShrinksOn(s, CleanOne(s, u, ids[0]), CleanEach(s, u, ids));
    }
  }

  lemma {:induction false} UnsendEachShrinks(s: State, ids: seq<nat>)
    ensures Shrinks(s, UnsendEach(s, ids).s) && UnsendEach(s, ids).s.boxes.Keys == s.boxes.Keys
    decreases |ids|
  {
    if ids != [] && ids[0] in s.memos && s.memos[ids[0]].realto.Some? && s.memos[ids[0]].realto.value in s.boxes {
      var t := Unlinked(s, ids[0]);
      UnlinkShrinks(s, ids[0]);
      ErasedShrinks(t, t.memos[ids[0]].realto.value, ids[0]);
      ShrinksOn(s, t, UnsendOne(s, ids[0]));
      UnsendEachShrinks(UnsendOne(s, ids[0]), ids[1..]);
      ShrinksOn(s, UnsendOne(s, ids[0]), UnsendEach(s, ids).s);
    }
  }

  lemma {:induction false} EraseEachShrinks(s: State, u: nat, ids: seq<nat>)
    requires u in s.boxes
    ensures Shrinks(s, EraseEach(s, u, ids)) && EraseEach(s, u, ids).boxes.Keys == s.boxes.Keys
    decreases |ids|
  {
    if ids != [] && ids[0] in s.memos {
      var m := s.memos[ids[0]].(realto := None);
      var t := Unlinked(s.(memos := s.memos[ids[0] := m]), ids[0]);
      UnlinkedShrinks(s, ids[0], m);
      ErasedShrinks(t, u, ids[0]);
      ShrinksOn(s, t, EraseOne(s, u, ids[0]));
      EraseEachShrinks(EraseOne(s, u, ids[0]), u, ids[1..]);
      ShrinksOn(s, EraseOne(s, u, ids[0]), EraseEach(s, u, ids));
    }
  }

  lemma DropShrinks(s: State, u: nat)
    requires u in s.boxes
    ensures var t := Dropped(s, u).s; Shrinks(s, t) && forall v :: v in s.boxes && v != u ==> v in t.boxes
  {
    UnsendEachShrinks(s, s.boxes[u].sent);
    var w := UnsendEach(s, s.boxes[u].sent);
    if !w.early && u in w.s.boxes {
      EraseEachShrinks(w.s, u, w.s.boxes[u].memos);
    }
  }

  lemma ReadsShrinks(s: State, u: nat, which: Which)
    requires u in s.boxes
    ensures Shrinks(s, Reads(s, u, which)) && Reads(s, u, which).boxes.Keys == s.boxes.Keys
  {
    match which
    case All => ReadEachShrinks(s, s.boxes[u].memos);
    case Index(i) => ReadEachShrinks(s, Pick(s, u, i));
    case _ =>
  }

  lemma DeletesShrinks(s: State, u: nat, which: Which)
    requires u in s.boxes
    ensures Shrinks(s, Deletes(s, u, which)) && Deletes(s, u, which).boxes.Keys == s.boxes.Keys
  {
    match which
    case Old => DeleteEachReadShrinks(s, s.boxes[u].memos);
    case Index(i) => DeleteEachShrinks(s, Pick(s, u, i));
    case _ => DeleteEachShrinks(s, s.boxes[u].memos);
  }

  lemma UnsendsShrinks(s: State, u: nat, which: Which)
    requires u in s.boxes
    ensures Shrinks(s, Unsends(s, u, which)) && Unsends(s, u, which).boxes.Keys == s.boxes.Keys
  {
    match which
    case All => UnsendEachShrinks(s, s.boxes[u].sent);
    case Index(i) => if 0 < i <= |s.boxes[u].sent| { UnsendEachShrinks(s, [s.boxes[u].sent[i - 1]]); }
    case _ =>
  }

  lemma StepShrinks(s: State, e: Event)
    requires !e.Send? && !e.NewNick? && !e.Nomemo?
    ensures Shrinks(s, Step(s, e)) && forall v :: v in s.boxes && e != DelNick(v) ==> v in Step(s, e).boxes
  {
    match e
    case Forward(_, _) =>
    case DelNick(u) => if u in s.boxes { DropShrinks(s, u); }
    case Read(u, arg) => if u in s.boxes { ReadsShrinks(s, u, ReadWhich(arg)); }
    case Save(_, _) =>
    case Delete(u, arg) => if u in s.boxes { DeletesShrinks(s, u, Selects(arg)); }
    case Clean(u) => if u in s.boxes { CleanEachShrinks(s, u, s.boxes[u].memos); }
    case Unsend(u, arg) => if u in s.boxes { UnsendsShrinks(s, u, ReadWhich(arg)); }
  }

  // No box holds more than it may.
  ghost predicate WithinMax(s: State) {
    forall u :: u in s.boxes ==> s.boxes[u].memocnt <= if s.boxes[u].max > 0 then s.boxes[u].max else 0
  }

  /** In every run, forwards included, no box gets more memos than its maximum but from senders that need no room. */
  lemma {:induction false} QuotaHolds(s: State, events: seq<Event>)
    requires WithinMax(s) && forall i :: 0 <= i < |events| && events[i].Send? ==> !events[i].m.servop
    ensures WithinMax(Run(s, events))
    decreases |events|
  {
    if events != [] {
      var e := events[0];
      if !e.Send? && !e.NewNick? && !e.Nomemo? {
        StepShrinks(s, e);
      }
      assert forall i :: 0 <= i < |events| - 1 ==> events[1..][i] == events[i + 1];
      QuotaHolds(Step(s, e), events[1..]);
    }
  }

  // Nothing that opens or drops the box of u, and no sender that overrides.
  predicate LeavesShut(e: Event, u: nat) {
    (e.Send? ==> !e.m.override) && (e.Nomemo? ==> e.user != u) && e != DelNick(u)
  }

  /** In every run, a box that takes no memos gets none but from senders that override. */
  lemma {:induction false} ShutBoxGetsNone(s: State, events: seq<Event>, u: nat)
    requires u in s.boxes && s.boxes[u].nomemo && forall i :: 0 <= i < |events| ==> LeavesShut(events[i], u)
    ensures var t := Run(s, events); u in t.boxes && t.boxes[u].nomemo && t.boxes[u].memocnt <= s.boxes[u].memocnt
    decreases |events|
  {
    if events != [] {
      var e := events[0];
      assert LeavesShut(e, u);
      if !e.Send? && !e.NewNick? && !e.Nomemo? {
        StepShrinks(s, e);
      }
      assert forall i :: 0 <= i < |events| - 1 ==> events[1..][i] == events[i + 1];
      ShutBoxGetsNone(Step(s, e), events[1..], u);
    }
  }
}
