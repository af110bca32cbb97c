/** memoserv.c and nickserv.c: memos, each on the list of a box and on at most one sender's list. Registrations and
    memos are numbers; a memo's `box` and `sentOn` say whose lists it is linked into. */
module MemoServ {
  import opened Text
  import opened L = ListMacros

  datatype Memo = Memo(realto: Option<nat>, box: nat, sentOn: Option<nat>,
                       unread: bool, deleted: bool, saved: bool, forwarded: bool)

  datatype Box = Box(memocnt: int, memos: seq<nat>, sent: seq<nat>, max: int, nomemo: bool, forward: Option<nat>)

  // The boxes of the registrations and the memos in memory; `next` numbers the memo allocated next. `freed` is set
  // where a send follows a forward to a registration that has been dropped.
  datatype State = State(boxes: map<nat, Box>, memos: map<nat, Memo>, next: nat, freed: bool)

  const START := State(map[], map[], 0, false)

  // ---- lists of numbers

  lemma {:induction false} MinusIs(ids: seq<nat>, id: nat)
    requires Distinct(ids)
    ensures Distinct(Minus(ids, id))
    ensures forall x :: x in Minus(ids, id) <==> x in ids && x != id
    ensures |Minus(ids, id)| == |ids| - if id in ids then 1 else 0
  {
    if ids != [] {
      var r, last := ids[..|ids| - 1], ids[|ids| - 1];
      assert ids == r + [last];
      if last != id {
        MinusIs(r, id);
        DistinctTail(Minus(r, id), last);
      }
    }
  }

  lemma DistinctTail(ids: seq<nat>, last: nat)
    requires Distinct(ids) && last !in ids
    ensures Distinct(ids + [last])
  {
    assert (ids + [last])[..|ids|] == ids;
  }

  // ---- the invariant

  ghost predicate BoxOk(s: State, u: nat)
    requires u in s.boxes
  {
    var b := s.boxes[u];
    && b.memocnt == |b.memos| && Distinct(b.memos) && Distinct(b.sent)
    && (forall id :: id in b.memos ==> id in s.memos && s.memos[id].box == u)
    && (forall id :: id in b.sent ==> id in s.memos && s.memos[id].sentOn == Some(u))
  }

  ghost predicate MemoOk(s: State, id: nat)
    requires id in s.memos
  {
    var m := s.memos[id];
    && id < s.next && m.realto == Some(m.box) && m.box in s.boxes && id in s.boxes[m.box].memos
    && (m.sentOn.Some? ==> m.sentOn.value in s.boxes && id in s.boxes[m.sentOn.value].sent && m.unread && !m.deleted)
  }

  /** Every counter is the length of its list; every memo is in the box of its realto, and lists hold live memos only; a
      memo on a sent list is unread and not marked deleted. */
  ghost predicate Valid(s: State) {
    && !s.freed
    && (forall u {:trigger BoxOk(s, u)} :: u in s.boxes ==> BoxOk(s, u))
    && (forall id {:trigger MemoOk(s, id)} :: id in s.memos ==> MemoOk(s, id))
  }

  lemma OnOneSentList(s: State, id: nat, u: nat, v: nat)
    requires Valid(s) && u in s.boxes && v in s.boxes && id in s.boxes[u].sent && id in s.boxes[v].sent
    ensures u == v
  {
    assert BoxOk(s, u) && BoxOk(s, v);
  }

  // ---- one memo

  // LIST_REMOVE(memo, ml_sent), if it is on such a list.
  function Unlinked(s: State, id: nat): State
    requires id in s.memos
  {
    match s.memos[id].sentOn
    case None => s
    case Some(v) =>
      s.(boxes := if v in s.boxes then s.boxes[v := s.boxes[v].(sent := Minus(s.boxes[v].sent, id))] else s.boxes,
         memos := s.memos[id := s.memos[id].(sentOn := None)])
  }

  // delMemo
  function Erased(s: State, u: nat, id: nat): State
    requires id in s.memos && u in s.boxes
  {
    var v := s.memos[id].box;
    var boxes := if v in s.boxes then s.boxes[v := s.boxes[v].(memos := Minus(s.boxes[v].memos, id))] else s.boxes;
    s.(boxes := boxes[u := boxes[u].(memocnt := boxes[u].memocnt - 1)], memos := s.memos - {id})
  }

  function ReadOne(s: State, id: nat): State
    requires id in s.memos
  {
    Unlinked(s.(memos := s.memos[id := s.memos[id].(unread := false)]), id)
  }

  function DeleteOne(s: State, id: nat): State
    requires id in s.memos
  {
    Unlinked(s.(memos := s.memos[id := s.memos[id].(deleted := true)]), id)
  }

  // The branch of ms_delete for memos already read.
  function DeleteRead(s: State, id: nat): State
    requires id in s.memos
  {
    if s.memos[id].unread then s else s.(memos := s.memos[id := s.memos[id].(deleted := true)])
  }

  // The memo's recipient loses it, and the sender's list.
  function UnsendOne(s: State, id: nat): State
    requires id in s.memos && s.memos[id].realto.Some? && s.memos[id].realto.value in s.boxes
  {
    var t := Unlinked(s, id);
    Erased(t, t.memos[id].realto.value, id)
  }

  lemma UnlinkedIsValid(s: State, id: nat, m: Memo)
    requires Valid(s) && id in s.memos
    requires m == s.memos[id].(unread := m.unread, deleted := m.deleted)
    ensures var t := Unlinked(s.(memos := s.memos[id := m]), id);
            && Valid(t) && t.memos == s.memos[id := m.(sentOn := None)] && t.next == s.next
            && t.boxes.Keys == s.boxes.Keys && forall u :: u in s.boxes ==> t.boxes[u].memos == s.boxes[u].memos
  {
    var t := Unlinked(s.(memos := s.memos[id := m]), id);
    assert MemoOk(s, id);
    if m.sentOn.Some? {
      assert BoxOk(s, m.sentOn.value);
      MinusIs(s.boxes[m.sentOn.value].sent, id);
    }
    UnlinkedBoxes(s, t, id, m);
    UnlinkedMemos(s, t, id, m);
  }

  lemma UnlinkedMemos(s: State, t: State, id: nat, m: Memo)
    requires Valid(s) && id in s.memos && t.next == s.next
    requires m == s.memos[id].(unread := m.unread, deleted := m.deleted) && t.memos == s.memos[id := m.(sentOn := None)]
    requires t.boxes.Keys == s.boxes.Keys && forall u :: u in s.boxes ==> t.boxes[u].memos == s.boxes[u].memos
    requires forall u, x :: u in s.boxes && x in s.boxes[u].sent && x != id ==> x in t.boxes[u].sent
    ensures forall x {:trigger MemoOk(t, x)} :: x in t.memos ==> MemoOk(t, x)
  {
    forall x | x in t.memos
      ensures MemoOk(t, x)
    {
      assert MemoOk(s, x);
    }
  }

  lemma UnlinkedBoxes(s: State, t: State, id: nat, m: Memo)
    requires Valid(s) && id in s.memos && m.box == s.memos[id].box && m.sentOn == s.memos[id].sentOn
    requires t == Unlinked(s.(memos := s.memos[id := m]), id) && t.memos == s.memos[id := m.(sentOn := None)]
    ensures forall u {:trigger BoxOk(t, u)} :: u in t.boxes ==> BoxOk(t, u)
  {
    forall u | u in t.boxes
      ensures BoxOk(t, u)
    {
      UnlinkedBox(s, t, id, m, u);
    }
  }

  lemma UnlinkedBox(s: State, t: State, id: nat, m: Memo, u: nat)
    requires Valid(s) && id in s.memos && m.box == s.memos[id].box && m.sentOn == s.memos[id].sentOn && u in s.boxes
    requires t == Unlinked(s.(memos := s.memos[id := m]), id) && t.memos == s.memos[id := m.(sentOn := None)]
    ensures u in t.boxes && BoxOk(t, u)
  {
    assert BoxOk(s, u);
    if m.sentOn == Some(u) {
      MinusIs(s.boxes[u].sent, id);
    } else {
      assert t.boxes[u] == s.boxes[u];
    }
  }

  lemma ErasedIsValid(s: State, id: nat)
    requires Valid(s) && id in s.memos && s.memos[id].sentOn.None?
    ensures s.memos[id].box in s.boxes
    ensures var t := Erased(s, s.memos[id].box, id);
            && Valid(t) && t.memos == s.memos - {id} && t.next == s.next && t.boxes.Keys == s.boxes.Keys
            && forall u :: u in s.boxes ==> t.boxes[u].sent == s.boxes[u].sent
  {
    assert MemoOk(s, id);
    var v := s.memos[id].box;
    assert BoxOk(s, v);
    MinusIs(s.boxes[v].memos, id);
    var t := Erased(s, v, id);
    ErasedBoxes(s, t, id);
    forall x | x in t.memos
      ensures MemoOk(t, x)
    {
      assert MemoOk(s, x);
    }
  }

  lemma ErasedBoxes(s: State, t: State, id: nat)
    requires Valid(s) && id in s.memos && s.memos[id].sentOn.None? && s.memos[id].box in s.boxes
    requires t == Erased(s, s.memos[id].box, id)
    ensures forall u {:trigger BoxOk(t, u)} :: u in t.boxes ==> BoxOk(t, u)
  {
    assert MemoOk(s, id);
    forall u | u in t.boxes
      ensures BoxOk(t, u)
    {
      assert BoxOk(s, u);
      MinusIs(s.boxes[u].memos, id);
    }
  }

  // ---- the commands

  // What an argument selects: all, the new, the old, or a number from 1.
  datatype Which = All | New | Old | Index(i: int)

  function Selects(arg: string): Which {
    if SameName(arg, "all") then All
    else if SameName(arg, "new") then New
    else if SameName(arg, "old") || SameName(arg, "read") then Old
    else Index(Atoi(arg))
  }

  // READ and UNSEND know only `all` and numbers.
  function ReadWhich(arg: string): Which {
    if SameName(arg, "all") then All else Index(Atoi(arg))
  }

  function ReadEach(s: State, ids: seq<nat>): State
    decreases |ids|
  {
    if ids == [] || ids[0] !in s.memos then s else ReadEach(ReadOne(s, ids[0]), ids[1..])
  }

  function DeleteEach(s: State, ids: seq<nat>): State
    decreases |ids|
  {
    if ids == [] || ids[0] !in s.memos then s else DeleteEach(DeleteOne(s, ids[0]), ids[1..])
  }

  function DeleteEachRead(s: State, ids: seq<nat>): State
    decreases |ids|
  {
    if ids == [] || ids[0] !in s.memos then s else DeleteEachRead(DeleteRead(s, ids[0]), ids[1..])
  }

  // ms_clean and cleanMemos
  function CleanEach(s: State, u: nat, ids: seq<nat>): State
    requires u in s.boxes
    decreases |ids|
  {
    if ids == [] || ids[0] !in s.memos then s else CleanEach(CleanOne(s, u, ids[0]), u, ids[1..])
  }

  function CleanOne(s: State, u: nat, id: nat): State
    requires u in s.boxes && id in s.memos
  {
    if s.memos[id].deleted then Erased(s, u, id) else s
  }

  // The loops over a sent list; `early` is the return on a memo without a recipient.
  datatype Swept = Swept(s: State, early: bool)

  function UnsendEach(s: State, ids: seq<nat>): Swept
    decreases |ids|
  {
    if ids == [] then Swept(s, false)
    else if ids[0] !in s.memos || s.memos[ids[0]].realto.None? || s.memos[ids[0]].realto.value !in s.boxes then
      Swept(s, true)
    else UnsendEach(UnsendOne(s, ids[0]), ids[1..])
  }

  // delRegNick's loop over the memos received.
  function EraseEach(s: State, u: nat, ids: seq<nat>): State
    requires u in s.boxes
    decreases |ids|
  {
    if ids == [] || ids[0] !in s.memos then s else EraseEach(EraseOne(s, u, ids[0]), u, ids[1..])
  }

  function EraseOne(s: State, u: nat, id: nat): State
    requires u in s.boxes && id in s.memos
  {
    Erased(Unlinked(s.(memos := s.memos[id := s.memos[id].(realto := None)]), id), u, id)
  }

  // A send: the sender's registration, the recipient's, and what the checks on the sender answer.
  datatype Sending = Sending(from: Option<nat>, to: nat, override: bool, blocked: bool, servop: bool)

  // Whose box ms_sendMemo puts the memo in.
  function Destination(s: State, to: nat): nat
    requires to in s.boxes
  {
    s.boxes[to].forward.GetOr(to)
  }

  predicate Refused(s: State, m: Sending)
    requires m.to in s.boxes && Destination(s, m.to) in s.boxes
  {
    var b := s.boxes[Destination(s, m.to)];
    (b.nomemo && !m.override) || (m.from.Some? && m.blocked) || (b.memocnt >= b.max && !m.servop)
  }

  // ms_sendMemo
  function Sent(s: State, m: Sending): State {
    if m.to !in s.boxes || (m.from.Some? && m.from.value !in s.boxes) then s
    else if Destination(s, m.to) !in s.boxes then s.(freed := true)
    else if Refused(s, m) then s
    else
      var d, id := Destination(s, m.to), s.next;
      var memo := Memo(Some(m.to), d, m.from, true, false, false, s.boxes[m.to].forward.Some?);
      var boxes := s.boxes[d := s.boxes[d].(memos := [id] + s.boxes[d].memos, memocnt := s.boxes[d].memocnt + 1)];
      s.(boxes := if m.from.Some? then
                    boxes[m.from.value := boxes[m.from.value].(sent := [id] + boxes[m.from.value].sent)]
                  else boxes,
         memos := s.memos[id := memo], next := s.next + 1)
  }

  datatype Event =
    | NewNick(user: nat, max: int)
    | Forward(user: nat, to: Option<nat>)
    | Nomemo(user: nat, on: bool)
    | Send(m: Sending)
    | Read(user: nat, arg: string)
    | Save(user: nat, arg: string)
    | Delete(user: nat, arg: string)
    | Clean(user: nat)
    | Unsend(user: nat, arg: string)
    | DelNick(user: nat)

  // The i-th memo of the box.
  function Pick(s: State, u: nat, i: int): seq<nat>
    requires u in s.boxes
  {
    if 0 < i <= s.boxes[u].memocnt && i <= |s.boxes[u].memos| then [s.boxes[u].memos[i - 1]] else []
  }

  function Reads(s: State, u: nat, which: Which): State
    requires u in s.boxes
  {
    match which
    case All => ReadEach(s, s.boxes[u].memos)
    case Index(i) => ReadEach(s, Pick(s, u, i))
    case _ => s
  }

  function Saves(s: State, u: nat, i: int): State
    requires u in s.boxes
  {
    var p := Pick(s, u, i);
    if p == [] || p[0] !in s.memos then s else s.(memos := s.memos[p[0] := s.memos[p[0]].(saved := true)])
  }

  function Deletes(s: State, u: nat, which: Which): State
    requires u in s.boxes
  {
    match which
    case All => DeleteEach(s, s.boxes[u].memos)
    case New => DeleteEach(s, s.boxes[u].memos)
    case Old => DeleteEachRead(s, s.boxes[u].memos)
    case Index(i) => DeleteEach(s, Pick(s, u, i))
  }

  function Unsends(s: State, u: nat, which: Which): State
    requires u in s.boxes
  {
    match which
    case All => UnsendEach(s, s.boxes[u].sent).s
    case Index(i) => if 0 < i <= |s.boxes[u].sent| then UnsendEach(s, [s.boxes[u].sent[i - 1]]).s else s
    case _ => s
  }

  // delRegNick
  function Dropped(s: State, u: nat): Swept
    requires u in s.boxes
  {
    var w := UnsendEach(s, s.boxes[u].sent);
    if w.early || u !in w.s.boxes then w
    else
      var t := EraseEach(w.s, u, w.s.boxes[u].memos);
      Swept(t.(boxes := t.boxes - {u}), false)
  }

  // ms_forward: to a registration, or off.
  function Forwarded(s: State, u: nat, to: Option<nat>): State {
    if u !in s.boxes || (to.Some? && to.value !in s.boxes) then s
    else s.(boxes := s.boxes[u := s.boxes[u].(forward := to)])
  }

  function Step(s: State, e: Event): State {
    match e
    case NewNick(u, max) => if u in s.boxes then s else s.(boxes := s.boxes[u := Box(0, [], [], max, false, None)])
    case Forward(u, to) => Forwarded(s, u, to)
    case Nomemo(u, on) => if u in s.boxes then s.(boxes := s.boxes[u := s.boxes[u].(nomemo := on)]) else s
    case Send(m) => Sent(s, m)
    case Read(u, arg) => if u in s.boxes then Reads(s, u, ReadWhich(arg)) else s
    case Save(u, arg) => if u in s.boxes then Saves(s, u, Atoi(arg)) else s
    case Delete(u, arg) => if u in s.boxes then Deletes(s, u, Selects(arg)) else s
    case Clean(u) => if u in s.boxes then CleanEach(s, u, s.boxes[u].memos) else s
    case Unsend(u, arg) => if u in s.boxes then Unsends(s, u, ReadWhich(arg)) else s
    case DelNick(u) => if u in s.boxes then Dropped(s, u).s else s
  }

  // ---- each command keeps the invariant

  ghost predicate Live(s: State, ids: seq<nat>) {
    Distinct(ids) && forall id :: id in ids ==> id in s.memos
  }

  lemma LiveTail(s: State, ids: seq<nat>)
    requires Live(s, ids) && ids != []
    ensures Live(s, ids[1..]) && ids[0] !in ids[1..]
  {
    DistinctRemove(ids, 0);
    assert RemoveAt(ids, 0) == ids[1..];
    forall k | 0 <= k < |ids| - 1
      ensures ids[1..][k] != ids[0]
    {
      DistinctAt(ids, k + 1, 0);
    }
  }

  lemma {:induction false} ReadEachIsValid(s: State, ids: seq<nat>)
    requires Valid(s) && Live(s, ids)
    ensures Valid(ReadEach(s, ids)) && ReadEach(s, ids).boxes.Keys == s.boxes.Keys
    decreases |ids|
  {
    if ids != [] {
      UnlinkedIsValid(s, ids[0], s.memos[ids[0]].(unread := false));
      LiveTail(s, ids);
      ReadEachIsValid(ReadOne(s, ids[0]), ids[1..]);
    }
  }

  lemma {:induction false} DeleteEachIsValid(s: State, ids: seq<nat>)
    requires Valid(s) && Live(s, ids)
    ensures Valid(DeleteEach(s, ids)) && DeleteEach(s, ids).boxes.Keys == s.boxes.Keys
    decreases |ids|
  {
    if ids != [] {
      UnlinkedIsValid(s, ids[0], s.memos[ids[0]].(deleted := true));
      LiveTail(s, ids);
      DeleteEachIsValid(DeleteOne(s, ids[0]), ids[1..]);
    }
  }

  // A flag that the invariant does not mention, or the deletion of a memo on no sent list.
  lemma FlaggedIsValid(s: State, id: nat, m: Memo)
    requires Valid(s) && id in s.memos
    requires m == s.memos[id].(deleted := m.deleted, saved := m.saved)
    requires m.deleted ==> m.sentOn.None? || s.memos[id].deleted
    ensures Valid(s.(memos := s.memos[id := m]))
  {
    var t := s.(memos := s.memos[id := m]);
    assert MemoOk(s, id);
    forall u | u in t.boxes
      ensures BoxOk(t, u)
    {
      assert BoxOk(s, u);
    }
    forall x | x in t.memos
      ensures MemoOk(t, x)
    {
      assert MemoOk(s, x);
    }
  }

  lemma {:induction false} DeleteEachReadIsValid(s: State, ids: seq<nat>)
    requires Valid(s) && Live(s, ids)
    ensures Valid(DeleteEachRead(s, ids)) && DeleteEachRead(s, ids).boxes.Keys == s.boxes.Keys
    decreases |ids|
  {
    if ids != [] {
      assert MemoOk(s, ids[0]);
      if !s.memos[ids[0]].unread {
        FlaggedIsValid(s, ids[0], s.memos[ids[0]].(deleted := true));
      }
      LiveTail(s, ids);
      DeleteEachReadIsValid(DeleteRead(s, ids[0]), ids[1..]);
    }
  }

  // Memos of this box, each once.
  ghost predicate OwnMemos(s: State, u: nat, ids: seq<nat>) {
    Live(s, ids) && forall id :: id in ids ==> s.memos[id].box == u
  }

  lemma CleanOneIsValid(s: State, u: nat, ids: seq<nat>)
    requires Valid(s) && u in s.boxes && OwnMemos(s, u, ids) && ids != []
    ensures var t := CleanOne(s, u, ids[0]);
            && Valid(t) && t.boxes.Keys == s.boxes.Keys && OwnMemos(t, u, ids[1..])
            && t.memos == if s.memos[ids[0]].deleted then s.memos - {ids[0]} else s.memos
  {
    LiveTail(s, ids);
    assert MemoOk(s, ids[0]);
    if s.memos[ids[0]].deleted {
      ErasedIsValid(s, ids[0]);
    }
  }

  /** Cleaning erases exactly the memos of the list that are marked deleted. */
  lemma {:induction false} CleanEachIsValid(s: State, u: nat, ids: seq<nat>)
    requires Valid(s) && u in s.boxes && OwnMemos(s, u, ids)
    ensures var t := CleanEach(s, u, ids);
            && Valid(t) && t.boxes.Keys == s.boxes.Keys
            && forall id :: id in t.memos <==> id in s.memos && !(id in ids && s.memos[id].deleted)
    decreases |ids|
  {
    if ids != [] {
      CleanOneIsValid(s, u, ids);
      LiveTail(s, ids);
      CleanEachIsValid(CleanOne(s, u, ids[0]), u, ids[1..]);
    }
  }

  lemma RealtoHasBox(s: State, id: nat)
    requires Valid(s) && id in s.memos
    ensures s.memos[id].realto == Some(s.memos[id].box) && s.memos[id].box in s.boxes
  {
    assert MemoOk(s, id);
  }

  lemma UnlinkedAlone(s: State, id: nat)
    requires Valid(s) && id in s.memos
    ensures var t := Unlinked(s, id);
            && Valid(t) && t.memos == s.memos[id := s.memos[id].(sentOn := None)] && t.boxes.Keys == s.boxes.Keys
  {
    UnlinkedIsValid(s, id, s.memos[id]);
    assert s.memos[id := s.memos[id]] == s.memos;
  }

  // A memo off every sent list, erased through its recipient.
  lemma ErasedByRecipient(t: State, id: nat)
    requires Valid(t) && id in t.memos && t.memos[id].sentOn.None?
    ensures t.memos[id].realto.Some? && t.memos[id].realto.value in t.boxes
    ensures var r := Erased(t, t.memos[id].realto.value, id);
            Valid(r) && r.boxes.Keys == t.boxes.Keys && r.memos == t.memos - {id}
  {
    RealtoHasBox(t, id);
    ErasedIsValid(t, id);
  }

  lemma UnsendOneIsValid(s: State, id: nat)
    requires Valid(s) && id in s.memos
    ensures s.memos[id].realto.Some? && s.memos[id].realto.value in s.boxes
    ensures var t := UnsendOne(s, id);
            && Valid(t) && t.boxes.Keys == s.boxes.Keys && t.memos == s.memos - {id}
  {
    RealtoHasBox(s, id);
    var t := Unlinked(s, id);
    UnlinkedAlone(s, id);
    var m := t.memos[id];
    assert m == s.memos[id].(sentOn := None);
    ErasedByRecipient(t, id);
    assert t.memos - {id} == s.memos - {id};
  }

  /** Unsending a sent list never meets a memo without a recipient, and erases exactly its memos. */
  lemma {:induction false} UnsendEachIsValid(s: State, ids: seq<nat>)
    requires Valid(s) && Live(s, ids)
    ensures var w := UnsendEach(s, ids);
            && !w.early && Valid(w.s) && w.s.boxes.Keys == s.boxes.Keys
            && (forall x :: x in w.s.memos <==> x in s.memos && x !in ids)
            && forall x :: x in w.s.memos ==> w.s.memos[x] == s.memos[x]
    decreases |ids|
  {
    if ids != [] {
      UnsendOneIsValid(s, ids[0]);
      LiveTail(s, ids);
      UnsendEachIsValid(UnsendOne(s, ids[0]), ids[1..]);
    }
  }

  // ---- sending

  lemma NextIsFree(s: State)
    requires Valid(s)
    ensures s.next !in s.memos
  {
    forall id | id in s.memos
      ensures id < s.next
    {
      assert MemoOk(s, id);
    }
  }

  lemma SentIsValid(s: State, m: Sending)
    requires Valid(s) && m.to in s.boxes && Destination(s, m.to) == m.to
    ensures Valid(Sent(s, m))
  {
    var t := Sent(s, m);
    if t != s {
      NextIsFree(s);
      assert BoxOk(s, m.to);
      SentBoxes(s, m);
      forall x | x in t.memos
        ensures MemoOk(t, x)
      {
        if x != s.next {
          assert MemoOk(s, x);
        }
      }
    }
  }

  lemma {:induction false} DistinctHead(id: nat, ids: seq<nat>)
    requires Distinct(ids) && id !in ids
    ensures Distinct([id] + ids)
  {
    assert InsertAt(ids, 0, id) == [id] + ids;
    DistinctInsert(ids, 0, id);
  }

  lemma SentBoxes(s: State, m: Sending)
    requires Valid(s) && m.to in s.boxes && Destination(s, m.to) == m.to && Sent(s, m) != s && s.next !in s.memos
    ensures forall u {:trigger BoxOk(Sent(s, m), u)} :: u in Sent(s, m).boxes ==> BoxOk(Sent(s, m), u)
  {
    var t := Sent(s, m);
    forall u | u in t.boxes
      ensures BoxOk(t, u)
    {
      assert BoxOk(s, u);
      DistinctHead(s.next, s.boxes[u].memos);
      DistinctHead(s.next, s.boxes[u].sent);
    }
  }

  /** A send keeps the invariant exactly if it is refused or the memo goes into the box of the registration it was
      addressed to: forwarding it to another box leaves its realto behind, and forwarding it to a registration that has
      been dropped uses a freed one. */
  lemma SendKeepsIff(s: State, m: Sending)
    requires Valid(s) && m.to in s.boxes && (m.from.Some? ==> m.from.value in s.boxes)
    ensures var d := Destination(s, m.to);
            Valid(Sent(s, m)) <==> d in s.boxes && (Refused(s, m) || d == m.to)
  {
    var t, d := Sent(s, m), Destination(s, m.to);
    if d in s.boxes && !Refused(s, m) {
      if d == m.to {
        SentIsValid(s, m);
      } else {
        assert t.memos[s.next].realto != Some(t.memos[s.next].box);
        assert !MemoOk(t, s.next);
      }
    }
  }

  // ---- dropping a registration

  lemma EraseOneIsValid(s: State, u: nat, ids: seq<nat>)
    requires Valid(s) && u in s.boxes && OwnMemos(s, u, ids) && ids != []
    ensures var t := EraseOne(s, u, ids[0]);
            && Valid(t) && t.boxes.Keys == s.boxes.Keys && t.memos == s.memos - {ids[0]} && OwnMemos(t, u, ids[1..])
  {
    var id := ids[0];
    LiveTail(s, ids);
    UnlinkedAlone(s, id);
    var t := Unlinked(s, id);
    ErasedIsValid(t, id);
    var t' := Unlinked(s.(memos := s.memos[id := s.memos[id].(realto := None)]), id);
    assert t'.boxes == t.boxes && t'.memos[id].box == t.memos[id].box;
    assert t'.memos - {id} == s.memos - {id} && t.memos - {id} == s.memos - {id};
    assert EraseOne(s, u, id) == Erased(t, u, id);
  }

  lemma {:induction false} EraseEachIsValid(s: State, u: nat, ids: seq<nat>)
    requires Valid(s) && u in s.boxes && OwnMemos(s, u, ids)
    ensures var t := EraseEach(s, u, ids);
            && Valid(t) && t.boxes.Keys == s.boxes.Keys
            && (forall x :: x in t.memos <==> x in s.memos && x !in ids)
            && forall x :: x in t.memos ==> t.memos[x] == s.memos[x]
    decreases |ids|
  {
    if ids != [] {
      EraseOneIsValid(s, u, ids);
      LiveTail(s, ids);
      EraseEachIsValid(EraseOne(s, u, ids[0]), u, ids[1..]);
    }
  }

  lemma BoxRemovedIsValid(s: State, u: nat)
    requires Valid(s) && forall x :: x in s.memos ==> s.memos[x].box != u && s.memos[x].sentOn != Some(u)
    ensures Valid(s.(boxes := s.boxes - {u}))
  {
    var t := s.(boxes := s.boxes - {u});
    forall v | v in t.boxes
      ensures BoxOk(t, v)
    {
      assert BoxOk(s, v);
    }
    forall x | x in t.memos
      ensures MemoOk(t, x)
    {
      assert MemoOk(s, x);
    }
  }

  lemma OwnLists(s: State, u: nat)
    requires Valid(s) && u in s.boxes
    ensures OwnMemos(s, u, s.boxes[u].memos) && Live(s, s.boxes[u].sent)
    ensures forall x :: x in s.memos ==> (s.memos[x].box == u <==> x in s.boxes[u].memos)
    ensures forall x :: x in s.memos ==> (s.memos[x].sentOn == Some(u) <==> x in s.boxes[u].sent)
  {
    assert BoxOk(s, u);
    forall x | x in s.memos
      ensures s.memos[x].box == u ==> x in s.boxes[u].memos
      ensures s.memos[x].sentOn == Some(u) ==> x in s.boxes[u].sent
    {
      assert MemoOk(s, x);
    }
  }

  /** delRegNick never takes its early return, and leaves no memo that the registration received or sent. */
  lemma DropIsComplete(s: State, u: nat)
    requires Valid(s) && u in s.boxes
    ensures var w := Dropped(s, u);
            && !w.early && Valid(w.s) && w.s.boxes.Keys == s.boxes.Keys - {u}
            && forall x :: x in w.s.memos <==> x in s.memos && s.memos[x].box != u && s.memos[x].sentOn != Some(u)
  {
    OwnLists(s, u);
    UnsendEachIsValid(s, s.boxes[u].sent);
    var a := UnsendEach(s, s.boxes[u].sent).s;
    OwnLists(a, u);
    EraseEachIsValid(a, u, a.boxes[u].memos);
    BoxRemovedIsValid(EraseEach(a, u, a.boxes[u].memos), u);
  }

  // ---- whole runs

  // A memo is refused, or goes to the registration it was addressed to.
  predicate Keeps(s: State, e: Event) {
    e.Send? && e.m.to in s.boxes && (e.m.from.Some? ==> e.m.from.value in s.boxes) ==>
      var d := Destination(s, e.m.to);
      d in s.boxes && (Refused(s, e.m) || d == e.m.to)
  }

  predicate KeepsRun(s: State, events: seq<Event>)
    decreases |events|
  {
    events == [] || (Keeps(s, events[0]) && KeepsRun(Step(s, events[0]), events[1..]))
  }

  // The invariant holds at every point of the run.
  ghost predicate StaysValid(s: State, events: seq<Event>)
    decreases |events|
  {
    Valid(s) && (events == [] || StaysValid(Step(s, events[0]), events[1..]))
  }

  function Run(s: State, events: seq<Event>): State
    decreases |events|
  {
    if events == [] then s else Run(Step(s, events[0]), events[1..])
  }

  lemma PickIsLive(s: State, u: nat, i: int)
    requires Valid(s) && u in s.boxes
    ensures Live(s, Pick(s, u, i))
  {
    assert BoxOk(s, u);
  }

  lemma NewBoxIsValid(s: State, u: nat, max: int)
    requires Valid(s) && u !in s.boxes
    ensures Valid(s.(boxes := s.boxes[u := Box(0, [], [], max, false, None)]))
  {
    var t := s.(boxes := s.boxes[u := Box(0, [], [], max, false, None)]);
    forall v | v in t.boxes
      ensures BoxOk(t, v)
    {
      if v != u {
        assert BoxOk(s, v);
      }
    }
    forall x | x in t.memos
      ensures MemoOk(t, x)
    {
      assert MemoOk(s, x);
    }
  }

  // The settings of a box make no difference.
  lemma SettingsAreValid(s: State, u: nat, t: State)
    requires Valid(s) && !t.freed && t.memos == s.memos && t.next == s.next && t.boxes.Keys == s.boxes.Keys
    requires forall v :: v in s.boxes && v != u ==> t.boxes[v] == s.boxes[v]
    requires u in s.boxes ==> t.boxes[u] == s.boxes[u].(nomemo := t.boxes[u].nomemo, forward := t.boxes[u].forward)
    ensures Valid(t)
  {
    forall v | v in t.boxes
      ensures BoxOk(t, v)
    {
      assert BoxOk(s, v);
    }
    forall x | x in t.memos
      ensures MemoOk(t, x)
    {
      assert MemoOk(s, x);
    }
  }

  lemma ReadsIsValid(s: State, u: nat, which: Which)
    requires Valid(s) && u in s.boxes
    ensures Valid(Reads(s, u, which))
  {
    OwnLists(s, u);
    match which
    case All => ReadEachIsValid(s, s.boxes[u].memos);
    case Index(i) => PickIsLive(s, u, i); ReadEachIsValid(s, Pick(s, u, i));
    case _ =>
  }

  lemma DeletesIsValid(s: State, u: nat, which: Which)
    requires Valid(s) && u in s.boxes
    ensures Valid(Deletes(s, u, which))
  {
    OwnLists(s, u);
    match which
    case All => DeleteEachIsValid(s, s.boxes[u].memos);
    case New => DeleteEachIsValid(s, s.boxes[u].memos);
    case Old => DeleteEachReadIsValid(s, s.boxes[u].memos);
    case Index(i) => PickIsLive(s, u, i); DeleteEachIsValid(s, Pick(s, u, i));
  }

  lemma UnsendsIsValid(s: State, u: nat, which: Which)
    requires Valid(s) && u in s.boxes
    ensures Valid(Unsends(s, u, which))
  {
    OwnLists(s, u);
    match which
    case All => UnsendEachIsValid(s, s.boxes[u].sent);
    case Index(i) =>
      if 0 < i <= |s.boxes[u].sent| {
        UnsendEachIsValid(s, [s.boxes[u].sent[i - 1]]);
      }
    case _ =>
  }

  lemma SavesIsValid(s: State, u: nat, i: int)
    requires Valid(s) && u in s.boxes
    ensures Valid(Saves(s, u, i))
  {
    var p := Pick(s, u, i);
    if p != [] && p[0] in s.memos {
      FlaggedIsValid(s, p[0], s.memos[p[0]].(saved := true));
    }
  }

  /** Every other command keeps the invariant. */
  lemma StepKeepsIff(s: State, e: Event)
    requires Valid(s)
    ensures Valid(Step(s, e)) <==> Keeps(s, e)
  {
    match e
    case NewNick(u, max) => if u !in s.boxes { NewBoxIsValid(s, u, max); }
    case Forward(u, to) => SettingsAreValid(s, u, Step(s, e));
    case Nomemo(u, on) => SettingsAreValid(s, u, Step(s, e));
    case Send(m) => if m.to in s.boxes && (m.from.Some? ==> m.from.value in s.boxes) { SendKeepsIff(s, m); }
    case Read(u, arg) => if u in s.boxes { ReadsIsValid(s, u, ReadWhich(arg)); }
    case Save(u, arg) => if u in s.boxes { SavesIsValid(s, u, Atoi(arg)); }
    case Delete(u, arg) => if u in s.boxes { DeletesIsValid(s, u, Selects(arg)); }
    case Clean(u) => if u in s.boxes { OwnLists(s, u); CleanEachIsValid(s, u, s.boxes[u].memos); }
    case Unsend(u, arg) => if u in s.boxes { UnsendsIsValid(s, u, ReadWhich(arg)); }
    case DelNick(u) => if u in s.boxes { DropIsComplete(s, u); }
  }

  /** A run of registrations, forwards, sends, reads, saves, deletions, cleanings, unsends and dropped registrations
      keeps the invariant throughout exactly if each memo sent in it is refused or goes to the registration it was
      addressed to: counters are list lengths, every memo is in its recipient's box and on at most one sent list, and
      whatever is on a sent list is unread and not marked deleted. */
  lemma {:induction false} MemosStayOwned(s: State, events: seq<Event>)
    requires Valid(s)
    ensures StaysValid(s, events) <==> KeepsRun(s, events)
    ensures KeepsRun(s, events) ==> Valid(Run(s, events))
    decreases |events|
  {
    if events != [] {
      StepKeepsIff(s, events[0]);
      if Keeps(s, events[0]) {
        MemosStayOwned(Step(s, events[0]), events[1..]);
      }
    }
  }

  /** So it is from an empty memory on. */
  lemma MemosOwnedFromStart(events: seq<Event>)
    ensures StaysValid(START, events) <==> KeepsRun(START, events)
    ensures KeepsRun(START, events) ==> Valid(Run(START, events))
  {
    MemosStayOwned(START, events);
  }

  lemma RunFirst(s: State, e: Event, more: seq<Event>)
    ensures Run(s, [e] + more) == Run(Step(s, e), more)
  {
    assert ([e] + more)[1..] == more;
  }

  lemma RunFour(s: State, a: Event, b: Event, c: Event, d: Event)
    ensures Run(s, [a] + ([b] + ([c] + ([d] + [])))) == Step(Step(Step(Step(s, a), b), c), d)
  {
    RunFirst(s, a, [b] + ([c] + ([d] + [])));
    RunFirst(Step(s, a), b, [c] + ([d] + []));
    RunFirst(Step(Step(s, a), b), c, [d] + []);
    RunFirst(Step(Step(Step(s, a), b), c), d, []);
  }

  /** Registrations 1 and 2, a forward from 1 to 2 and a memo to 1 break the ownership of memos. */
  lemma ForwardExample(m: Sending)
    requires m == Sending(None, 1, false, false, false)
    ensures !Valid(Run(START, [NewNick(1, 10), NewNick(2, 10), Forward(1, Some(2)), Send(m)]))
  {
    var a := Step(START, NewNick(1, 10));
    var b := Step(a, NewNick(2, 10));
    var c := Step(b, Forward(1, Some(2)));
    RunFour(START, NewNick(1, 10), NewNick(2, 10), Forward(1, Some(2)), Send(m));
    assert [NewNick(1, 10)] + ([NewNick(2, 10)] + ([Forward(1, Some(2))] + ([Send(m)] + [])))
        == [NewNick(1, 10), NewNick(2, 10), Forward(1, Some(2)), Send(m)];
    StepKeepsIff(START, NewNick(1, 10));
    StepKeepsIff(a, NewNick(2, 10));
    StepKeepsIff(b, Forward(1, Some(2)));
    assert b.boxes[1] == b.boxes[2] == Box(0, [], [], 10, false, None);
    assert c.boxes[1].forward == Some(2) && c.boxes[2] == b.boxes[2];
    SendKeepsIff(c, m);
  }

  // ---- memoserv.c and nickserv.c

  class Services {
    var boxes: map<nat, Box>
    var memos: map<nat, Memo>
    var next: nat
    var freed: bool

    ghost function TheState(): State
      reads this
    {
      State(boxes, memos, next, freed)
    }

    constructor ()
      ensures TheState() == START
    {
      boxes, memos, next, freed := map[], map[], 0, false;
    }

    // LIST_REMOVE(memo, ml_sent) under its test.
    method Unlink(id: nat)
      requires id in memos
      modifies this`boxes, this`memos
      ensures TheState() == Unlinked(old(TheState()), id)
    {
      if memos[id].sentOn.Some? {
        var v := memos[id].sentOn.value;
        if v in boxes {
          boxes := boxes[v := boxes[v].(sent := Minus(boxes[v].sent, id))];
        }
        memos := memos[id := memos[id].(sentOn := None)];
      }
    }

    /** delMemo. */
    method DelMemo(u: nat, id: nat)
      requires id in memos && u in boxes
      modifies this`boxes, this`memos
      ensures TheState() == Erased(old(TheState()), u, id)
    {
      var v := memos[id].box;
      if v in boxes {
        boxes := boxes[v := boxes[v].(memos := Minus(boxes[v].memos, id))];
      }
      boxes := boxes[u := boxes[u].(memocnt := boxes[u].memocnt - 1)];
      memos := memos - {id};
    }

    /** ms_sendMemo; true where it returns 0. */
    method SendMemo(m: Sending) returns (ok: bool)
      requires Valid(TheState()) && (m.from.Some? ==> m.from.value in boxes)
      modifies this
      ensures TheState() == Sent(old(TheState()), m)
      ensures ok <==> m.to in old(boxes) && Destination(old(TheState()), m.to) in old(boxes)
                      && !Refused(old(TheState()), m)
      ensures Valid(TheState()) <==> !freed && (ok ==> Destination(old(TheState()), m.to) == m.to)
    {
      if m.to !in boxes {
        return false;
      }
      SendKeepsIff(TheState(), m);
      var newmemo := Memo(Some(m.to), m.to, None, true, false, false, false);
      var sendto := m.to;
      if boxes[sendto].forward.Some? {
        newmemo := newmemo.(forwarded := true);
        sendto := boxes[sendto].forward.value;
      }
      if sendto !in boxes {
        freed := true;
        return false;
      }
      if boxes[sendto].nomemo && !m.override {
        return false;
      }
      if m.from.Some? && m.blocked {
        return false;
      }
      if boxes[sendto].memocnt >= boxes[sendto].max && !m.servop {
        return false;
      }
      var id := next;
      boxes := boxes[sendto := boxes[sendto].(memos := [id] + boxes[sendto].memos,
                                              memocnt := boxes[sendto].memocnt + 1)];
      newmemo := newmemo.(box := sendto);
      if m.from.Some? {
        var from := m.from.value;
        boxes := boxes[from := boxes[from].(sent := [id] + boxes[from].sent)];
        newmemo := newmemo.(sentOn := Some(from));
      }
      memos := memos[id := newmemo];
      next := next + 1;
      return true;
    }

    /** ms_forward, past its checks on the password. */
    method Forward(u: nat, to: Option<nat>)
      requires Valid(TheState()) && u in boxes && (to.Some? ==> to.value in boxes)
      modifies this`boxes
      ensures Valid(TheState()) && TheState() == Forwarded(old(TheState()), u, to)
    {
      SettingsAreValid(TheState(), u, Forwarded(TheState(), u, to));
      boxes := boxes[u := boxes[u].(forward := to)];
    }

    // The memos of a box that a number selects.
    method Numbered(u: nat, i: int) returns (ids: seq<nat>)
      requires Valid(TheState()) && u in boxes
      ensures ids == Pick(TheState(), u, i) && Live(TheState(), ids)
    {
      OwnLists(TheState(), u);
      PickIsLive(TheState(), u, i);
      if i > boxes[u].memocnt || i <= 0 {
        return [];
      }
      assert BoxOk(TheState(), u);
      return [boxes[u].memos[i - 1]];
    }

    method ReadList(ids: seq<nat>)
      requires Valid(TheState()) && Live(TheState(), ids)
      modifies this`boxes, this`memos
      ensures Valid(TheState()) && TheState() == ReadEach(old(TheState()), ids)
    {
      ReadEachIsValid(TheState(), ids);
      assert ids[0..] == ids;
      for i := 0 to |ids|
        invariant Valid(TheState()) && Live(TheState(), ids[i..])
        invariant ReadEach(old(TheState()), ids) == ReadEach(TheState(), ids[i..])
      {
        var id := ids[i];
        assert ids[i..][0] == id && ids[i..][1..] == ids[i + 1..];
        LiveTail(TheState(), ids[i..]);
        UnlinkedIsValid(TheState(), id, memos[id].(unread := false));
        memos := memos[id := memos[id].(unread := false)];
        Unlink(id);
      }
    }

    /** ms_read. */
    method Read(u: nat, arg: string)
      requires Valid(TheState()) && u in boxes
      modifies this`boxes, this`memos
      ensures Valid(TheState()) && TheState() == Reads(old(TheState()), u, ReadWhich(arg))
    {
      OwnLists(TheState(), u);
      if SameName(arg, "all") {
        ReadList(boxes[u].memos);
      } else {
        var ids := Numbered(u, Atoi(arg));
        ReadList(ids);
      }
    }

    // `old` spares the memos not read yet.
    method DeleteList(ids: seq<nat>, old_: bool)
      requires Valid(TheState()) && Live(TheState(), ids)
      modifies this`boxes, this`memos
      ensures Valid(TheState())
      ensures TheState() == if old_ then DeleteEachRead(old(TheState()), ids) else DeleteEach(old(TheState()), ids)
    {
      assert ids[0..] == ids;
      for i := 0 to |ids|
        invariant Valid(TheState()) && Live(TheState(), ids[i..])
        invariant if old_ then DeleteEachRead(old(TheState()), ids) == DeleteEachRead(TheState(), ids[i..])
                  else DeleteEach(old(TheState()), ids) == DeleteEach(TheState(), ids[i..])
      {
        var id := ids[i];
        assert ids[i..][0] == id && ids[i..][1..] == ids[i + 1..];
        LiveTail(TheState(), ids[i..]);
        assert MemoOk(TheState(), id);
        if old_ {
          if !memos[id].unread {
            FlaggedIsValid(TheState(), id, memos[id].(deleted := true));
            memos := memos[id := memos[id].(deleted := true)];
          }
        } else {
          UnlinkedIsValid(TheState(), id, memos[id].(deleted := true));
          memos := memos[id := memos[id].(deleted := true)];
          Unlink(id);
        }
      }
    }

    /** ms_delete. */
    method Delete(u: nat, arg: string)
      requires Valid(TheState()) && u in boxes
      modifies this`boxes, this`memos
      ensures Valid(TheState()) && TheState() == Deletes(old(TheState()), u, Selects(arg))
    {
      OwnLists(TheState(), u);
      if SameName(arg, "all") {
        DeleteList(boxes[u].memos, false);
      } else if SameName(arg, "new") {
        DeleteList(boxes[u].memos, false);
      } else if SameName(arg, "old") || SameName(arg, "read") {
        DeleteList(boxes[u].memos, true);
      } else {
        var ids := Numbered(u, Atoi(arg));
        DeleteList(ids, false);
      }
    }

    /** ms_clean. */
    method Clean(u: nat)
      requires Valid(TheState()) && u in boxes
      modifies this`boxes, this`memos
      ensures Valid(TheState()) && TheState() == Step(old(TheState()), Event.Clean(u))
    {
      OwnLists(TheState(), u);
      var ids := boxes[u].memos;
      CleanEachIsValid(TheState(), u, ids);
      assert ids[0..] == ids;
      for i := 0 to |ids|
        invariant Valid(TheState()) && u in boxes && OwnMemos(TheState(), u, ids[i..])
        invariant CleanEach(old(TheState()), u, ids) == CleanEach(TheState(), u, ids[i..])
      {
        var id := ids[i];
        assert ids[i..][0] == id && ids[i..][1..] == ids[i + 1..];
        CleanOneIsValid(TheState(), u, ids[i..]);
        if memos[id].deleted {
          DelMemo(u, id);
        }
      }
    }

    // The loop over a sent list; true where it returns early.
    method UnsendList(ids: seq<nat>) returns (early: bool)
      requires Valid(TheState()) && Live(TheState(), ids)
      modifies this`boxes, this`memos
      ensures !early && Valid(TheState()) && Swept(TheState(), early) == UnsendEach(old(TheState()), ids)
    {
      UnsendEachIsValid(TheState(), ids);
      assert ids[0..] == ids;
      for i := 0 to |ids|
        invariant Valid(TheState()) && Live(TheState(), ids[i..])
        invariant UnsendEach(old(TheState()), ids) == UnsendEach(TheState(), ids[i..])
      {
        var id := ids[i];
        assert ids[i..][0] == id && ids[i..][1..] == ids[i + 1..];
        LiveTail(TheState(), ids[i..]);
        UnsendOneIsValid(TheState(), id);
        var to := memos[id].realto;
        if to.None? {
          return true;
        }
        Unlink(id);
        DelMemo(to.value, id);
      }
      return false;
    }

    /** ms_unsend with an argument. */
    method Unsend(u: nat, arg: string)
      requires Valid(TheState()) && u in boxes
      modifies this`boxes, this`memos
      ensures Valid(TheState()) && TheState() == Unsends(old(TheState()), u, ReadWhich(arg))
    {
      OwnLists(TheState(), u);
      if SameName(arg, "all") {
        var _ := UnsendList(boxes[u].sent);
      } else {
        var i := Atoi(arg);
        if 0 < i <= |boxes[u].sent| {
          var _ := UnsendList([boxes[u].sent[i - 1]]);
        }
      }
    }

    // delRegNick's loop over the memos received.
    method EraseList(u: nat, ids: seq<nat>)
      requires Valid(TheState()) && u in boxes && OwnMemos(TheState(), u, ids)
      modifies this`boxes, this`memos
      ensures TheState() == EraseEach(old(TheState()), u, ids)
    {
      assert ids[0..] == ids;
      for i := 0 to |ids|
        invariant Valid(TheState()) && u in boxes && OwnMemos(TheState(), u, ids[i..])
        invariant EraseEach(old(TheState()), u, ids) == EraseEach(TheState(), u, ids[i..])
      {
        var id := ids[i];
        assert ids[i..][0] == id && ids[i..][1..] == ids[i + 1..];
        EraseOneIsValid(TheState(), u, ids[i..]);
        EraseMemo(u, id);
      }
    }

    method EraseMemo(u: nat, id: nat)
      requires id in memos && u in boxes
      modifies this`boxes, this`memos
      ensures TheState() == EraseOne(old(TheState()), u, id)
    {
      memos := memos[id := memos[id].(realto := None)];
      Unlink(id);
      DelMemo(u, id);
    }

    /** delRegNick, from where it has the memos of the registration. */
    method DelRegNick(u: nat) returns (early: bool)
      requires Valid(TheState()) && u in boxes
      modifies this`boxes, this`memos
      ensures !early && Valid(TheState()) && Swept(TheState(), early) == Dropped(old(TheState()), u)
    {
      DropIsComplete(TheState(), u);
      OwnLists(TheState(), u);
      UnsendEachIsValid(TheState(), boxes[u].sent);
      early := UnsendList(boxes[u].sent);
      if early {
        return;
      }
      OwnLists(TheState(), u);
      EraseList(u, boxes[u].memos);
      boxes := boxes - {u};
      return false;
    }
  }
}
