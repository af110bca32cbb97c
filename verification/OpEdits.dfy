/** chanserv.c: do_chanop and its add and delete commands, on the op list of a registered channel. The acting user's
    level is the one getMiscChanOp computes from the same list. */
module OpEdits {
  import opened Text
  import opened ChanAccess

  datatype Cmd = AddOp | DelOp | ListOp

  datatype Ret = NoPerm | Fail | Killed | NoTarget | EFault | Ok

  datatype Edited = Edited(ops: seq<Entry>, ret: Ret)

  // A command: who gives it, about whom, at which level (-1 for none), the op limit, and what addFlood answers.
  datatype Command = Command(cmd: Cmd, from: string, target: string, tarLevel: int, maxOps: nat, flooded: bool)

  function FindAt(ops: seq<Entry>, id: int): (k: Option<nat>)
    ensures k.Some? ==> k.value < |ops| && ops[k.value].nickId == id
    ensures k.None? ==> forall i :: 0 <= i < |ops| ==> ops[i].nickId != id
    decreases |ops|
  {
    if ops == [] then None
    else if ops[0].nickId == id then Some(0)
    else match FindAt(ops[1..], id)
         case None => None
         case Some(k) => Some(k + 1)
  }

  // ---- what the commands do

  // The highest level an actor of this level may hand out; getting there differs for additions and deletions at AOP.
  function Rank(level: int): int {
    if level < MSOP then 1 else if level < SOP then MAOP else if level < FOUNDER then level - 1 else level
  }

  function AddRank(level: int): int {
    if level <= AOP then 0 else Rank(level)
  }

  function DelRank(level: int): int {
    if level < AOP then 0 else Rank(level)
  }

  // getMiscChanOp as do_chanop_add uses it, with the direct-modification bonus.
  function AddLevel(w: World, env: Env, c: Chan, u: User, from: string): int {
    var level := Level(w, env, c, from, c.ident);
    if level < FOUNDER && u.oper && OpFlagged(w, u, {Dmod, Override}) then FOUNDER + 1 else level
  }

  predicate Unlimited(w: World, env: Env, c: Chan, u: User, level: int) {
    OpFlagged(w, u, {Dmod, Override}) || IsFounder(w, env, c, u) || level == FOUNDER
  }

  predicate Refuses(w: World, u: User, id: int)
    requires id in w.nicks
  {
    w.nicks[id].noAddOp
    && (!u.oper || (!OpFlagged(w, u, {Override, Servop}) && !OpFlagged(w, u, {Override, Dmod})))
  }

  // Changing the level of a listed operator.
  function Promote(ops: seq<Entry>, k: nat, tar: int, level: int, unlimited: bool): Edited
    requires k < |ops|
  {
    var limit := Min(AddRank(level), level - 1);
    if tar == -1 then Edited(ops, Fail)
    else if tar < 1 || tar > FOUNDER then Edited(ops, EFault)
    else if !unlimited && (tar > limit || ops[k].uflags > limit) then Edited(ops, NoPerm)
    else Edited(ops[k := ops[k].(uflags := tar)], Ok)
  }

  // Listing a new one.
  function Enlist(ops: seq<Entry>, id: int, tar: int, level: int, unlimited: bool, refuses: bool): Edited {
    var wanted := if tar == -1 then MAOP else tar;
    var limit := if unlimited then AddRank(level) else Min(AddRank(level), FOUNDER - 1);
    if wanted > limit || refuses then Edited(ops, NoPerm)
    else if wanted < 1 || wanted > FOUNDER then Edited(ops, EFault)
    else Edited(ops + [Entry(id, wanted)], Ok)
  }

  function Add(w: World, env: Env, c: Chan, u: User, from: string, target: string, tar: int): Edited {
    var level := AddLevel(w, env, c, u, from);
    var unlimited := Unlimited(w, env, c, u, level);
    match FindReg(w, target)
    case None => Edited(c.ops, NoTarget)
    case Some(id) =>
      match FindAt(c.ops, id)
      case Some(k) => Promote(c.ops, k, tar, level, unlimited)
      case None => Enlist(c.ops, id, tar, level, unlimited, Refuses(w, u, id))
  }

  // The entry a deletion names, by its number from 1 or by nick, if it is at the given level.
  function Named(w: World, ops: seq<Entry>, target: string, tar: int): (k: Option<nat>)
    ensures k.Some? ==> k.value < |ops|
  {
    var x := Atoi(target);
    var k: Option<nat> := if x == 0 then (match FindReg(w, target) case None => None case Some(id) => FindAt(ops, id))
                          else if 1 <= x <= |ops| then Some(x - 1) else None;
    if k.Some? && (tar == -1 || ops[k.value].uflags == tar) then k else None
  }

  function Del(w: World, env: Env, c: Chan, u: User, from: string, target: string, tar: int): Edited {
    match Named(w, c.ops, target, tar)
    case None => Edited(c.ops, NoTarget)
    case Some(k) =>
      var level := if OpFlagged(w, u, {Oper, Dmod, Override}) then FOUNDER else Level(w, env, c, from, c.ident);
      Unlist(c.ops, k, level, u.reg)
  }

  function Unlist(ops: seq<Entry>, k: nat, level: int, reg: Option<int>): Edited
    requires k < |ops|
  {
    if ops[k].uflags > DelRank(level) && reg != Some(ops[k].nickId) then Edited(ops, NoPerm)
    else Edited(ops[..k] + ops[k + 1..], Ok)
  }

  // do_chanop.
  function Edit(w: World, env: Env, c: Chan, m: Command): Edited {
    match FindUser(w, m.from)
    case None => Edited(c.ops, Fail)
    case Some(u) =>
      var mylevel := if IsFounder(w, env, c, u) then FOUNDER else Level(w, env, c, m.from, c.ident);
      if AOP > mylevel && !OpFlagged(w, u, {Oper, Override}) then Edited(c.ops, NoPerm)
      else if |c.ops| >= m.maxOps && m.cmd.AddOp? && !OpFlagged(w, u, {Override}) then
        Edited(c.ops, if m.flooded then Killed else Fail)
      else if !OpFlagged(w, u, {Override, Dmod, Oper}) && Level(w, env, c, m.from, true) < AOP then
        Edited(c.ops, NoPerm)
      else match m.cmd
           case AddOp => Add(w, env, c, u, m.from, m.target, m.tarLevel)
           case DelOp => Del(w, env, c, u, m.from, m.target, m.tarLevel)
           case ListOp => Edited(c.ops, Ok)
  }

  // ---- the threshold, over whole runs

  // A command with the world and the channel settings at the time; the op list is the run's.
  datatype Event = Event(w: World, settings: Chan, m: Command)

  function At(e: Event, ops: seq<Entry>): Chan {
    e.settings.(ops := ops)
  }

  function After(env: Env, ops: seq<Entry>, e: Event): seq<Entry> {
    Edit(e.w, env, At(e, ops), e.m).ops
  }

  function Run(env: Env, ops: seq<Entry>, events: seq<Event>): seq<Entry>
    decreases |events|
  {
    if events == [] then ops else Run(env, After(env, ops, events[0]), events[1..])
  }

  // The actor uses no override and is not the founder.
  predicate Ordinary(env: Env, ops: seq<Entry>, e: Event) {
    match FindUser(e.w, e.m.from)
    case None => true
    case Some(u) => !u.overriding && !IsFounder(e.w, env, At(e, ops), u)
  }

  // And acts at level at most t, below FOUNDER.
  predicate Below(env: Env, ops: seq<Entry>, e: Event, t: int) {
    && Ordinary(env, ops, e)
    && var level := Level(e.w, env, At(e, ops), e.m.from, e.settings.ident);
       level <= t && level < FOUNDER
  }

  predicate AllBelow(env: Env, ops: seq<Entry>, events: seq<Event>, t: int)
    decreases |events|
  {
    events == [] || (Below(env, ops, events[0], t) && AllBelow(env, After(env, ops, events[0]), events[1..], t))
  }

  // The entry's own holder gives a deletion.
  predicate ByHolder(e: Event, x: Entry) {
    && e.m.cmd.DelOp? && FindUser(e.w, e.m.from).Some?
    && FindUser(e.w, e.m.from).value.reg == Some(x.nickId)
  }

  lemma RanksBelow(level: int)
    requires level < FOUNDER
    ensures Min(AddRank(level), level - 1) < level
    ensures AddRank(level) > 0 ==> AddRank(level) < level
    ensures level >= AOP ==> DelRank(level) < level
  {
  }

  lemma AddBelow(w: World, env: Env, c: Chan, u: User, from: string, target: string, tar: int, t: int)
    requires !u.overriding && !IsFounder(w, env, c, u)
    requires Level(w, env, c, from, c.ident) <= t && Level(w, env, c, from, c.ident) < FOUNDER
    ensures var ops := Add(w, env, c, u, from, target, tar).ops;
            forall x: Entry :: x.uflags >= t ==> (x in ops <==> x in c.ops)
  {
    var level := Level(w, env, c, from, c.ident);
    RanksBelow(level);
    var id := FindReg(w, target);
    if id.Some? {
      var k := FindAt(c.ops, id.value);
      var ops := Add(w, env, c, u, from, target, tar).ops;
      if k.Some? {
        UpdateKeeps(c.ops, k.value, tar, t);
      }
    }
  }

  lemma UpdateKeeps(ops: seq<Entry>, k: nat, tar: int, t: int)
    requires k < |ops|
    ensures tar < t && ops[k].uflags < t ==>
            forall x: Entry :: x.uflags >= t ==> (x in ops[k := ops[k].(uflags := tar)] <==> x in ops)
  {
    var ops' := ops[k := ops[k].(uflags := tar)];
    forall x: Entry | x.uflags >= t && tar < t && ops[k].uflags < t
      ensures x in ops' <==> x in ops
    {
      if x in ops {
        var i :| 0 <= i < |ops| && ops[i] == x;
        assert ops'[i] == x;
      }
    }
  }

  lemma DelBelow(w: World, env: Env, c: Chan, u: User, from: string, target: string, tar: int, t: int)
    requires !u.overriding
    requires AOP <= Level(w, env, c, from, c.ident) <= t && Level(w, env, c, from, c.ident) < FOUNDER
    ensures var ops := Del(w, env, c, u, from, target, tar).ops;
            forall x: Entry :: x.uflags >= t ==>
              (x in ops ==> x in c.ops) && (x in c.ops ==> x in ops || u.reg == Some(x.nickId))
  {
    RanksBelow(Level(w, env, c, from, c.ident));
    var k := Named(w, c.ops, target, tar);
    if k.Some? {
      forall x | x in c.ops
        ensures x in c.ops[..k.value] + c.ops[k.value + 1..] || x == c.ops[k.value]
      {
        RemovedKeeps(c.ops, k.value, x);
      }
    }
  }

  lemma RemovedKeeps(ops: seq<Entry>, k: nat, x: Entry)
    requires k < |ops| && x in ops
    ensures x in ops[..k] + ops[k + 1..] || x == ops[k]
  {
    var i :| 0 <= i < |ops| && ops[i] == x;
    if i < k {
      assert ops[..k][i] == x;
    } else if i > k {
      assert ops[k + 1..][i - k - 1] == x;
    }
  }

  /** One command of an actor at level at most t: no entry at t or above appears or changes, and one that goes is the
      actor's own. */
  lemma OneEdit(env: Env, ops: seq<Entry>, e: Event, t: int)
    requires Below(env, ops, e, t)
    ensures forall x: Entry :: x.uflags >= t ==>
              (x in After(env, ops, e) ==> x in ops) && (x in ops ==> x in After(env, ops, e) || ByHolder(e, x))
  {
    var c := At(e, ops);
    if FindUser(e.w, e.m.from).Some? {
      var u := FindUser(e.w, e.m.from).value;
      if e.m.cmd.AddOp? {
        AddBelow(e.w, env, c, u, e.m.from, e.m.target, e.m.tarLevel, t);
      } else if e.m.cmd.DelOp? && AOP <= Level(e.w, env, c, e.m.from, c.ident) {
        DelBelow(e.w, env, c, u, e.m.from, e.m.target, e.m.tarLevel, t);
      }
    }
  }

  // Event i is a deletion by the holder of x, and takes x off the list.
  ghost predicate RemovedBy(env: Env, ops: seq<Entry>, events: seq<Event>, i: nat, x: Entry) {
    i < |events| && ByHolder(events[i], x) && x in Run(env, ops, events[..i]) && x !in Run(env, ops, events[..i + 1])
  }

  lemma RunFirst(env: Env, ops: seq<Entry>, events: seq<Event>, i: nat)
    requires events != [] && i < |events|
    ensures Run(env, ops, events[..i + 1]) == Run(env, After(env, ops, events[0]), events[1..][..i])
  {
    assert events[..i + 1][1..] == events[1..][..i];
  }

  lemma RemovedLater(env: Env, ops: seq<Entry>, events: seq<Event>, i: nat, x: Entry)
    requires events != [] && RemovedBy(env, After(env, ops, events[0]), events[1..], i, x)
    ensures RemovedBy(env, ops, events, i + 1, x)
  {
    RunFirst(env, ops, events, i);
    RunFirst(env, ops, events, i + 1);
  }

  lemma RemovedFirst(env: Env, ops: seq<Entry>, events: seq<Event>, x: Entry)
    requires events != [] && ByHolder(events[0], x) && x in ops && x !in After(env, ops, events[0])
    ensures RemovedBy(env, ops, events, 0, x)
  {
    RunFirst(env, ops, events, 0);
  }

  /** Over a whole run whose actors use no override, are not the founder and act at level at most t and below FOUNDER:
      entries at t or above are never added or changed, and the command that removes one is its own holder's. */
  lemma {:induction false} ThresholdHolds(env: Env, ops: seq<Entry>, events: seq<Event>, t: int)
    requires AllBelow(env, ops, events, t)
    ensures forall x: Entry :: x.uflags >= t && x in Run(env, ops, events) ==> x in ops
    ensures forall x: Entry :: x.uflags >= t && x in ops && x !in Run(env, ops, events) ==>
              exists i: nat :: RemovedBy(env, ops, events, i, x)
    decreases |events|
  {
    if events != [] {
      var next := After(env, ops, events[0]);
      OneEdit(env, ops, events[0], t);
      ThresholdHolds(env, next, events[1..], t);
      forall x: Entry | x.uflags >= t && x in ops && x !in Run(env, ops, events)
        ensures exists i: nat :: RemovedBy(env, ops, events, i, x)
      {
        if x in next {
          var i: nat :| RemovedBy(env, next, events[1..], i, x);
          RemovedLater(env, ops, events, i, x);
        } else {
          RemovedFirst(env, ops, events, x);
        }
      }
    }
  }

  predicate AllOrdinary(env: Env, ops: seq<Entry>, events: seq<Event>)
    decreases |events|
  {
    events == [] || (Ordinary(env, ops, events[0]) && AllOrdinary(env, After(env, ops, events[0]), events[1..]))
  }

  lemma {:induction false} OrdinaryAreBelow(env: Env, ops: seq<Entry>, events: seq<Event>, top: int)
    requires AllOrdinary(env, ops, events) && AtMost(ops, top) && 0 <= top < FOUNDER
    ensures AllBelow(env, ops, events, top) && AtMost(Run(env, ops, events), top)
    decreases |events|
  {
    if events != [] {
      var e := events[0];
      var next := After(env, ops, e);
      LevelBound(e.w, env, At(e, ops), e.m.from, e.settings.ident, top);
      OneEdit(env, ops, e, top);
      forall i | 0 <= i < |next|
        ensures next[i].uflags <= top
      {
        assert next[i] in next;
      }
      OrdinaryAreBelow(env, next, events[1..], top);
    }
  }

  /** Without override or founder, whatever the users identify to, nobody ever rises above the highest level listed at
      the start (below FOUNDER), and the command that removes an entry at that level is its own holder's. */
  lemma NobodyRises(env: Env, ops: seq<Entry>, events: seq<Event>, top: int)
    requires AllOrdinary(env, ops, events) && AtMost(ops, top) && 0 <= top < FOUNDER
    ensures AtMost(Run(env, ops, events), top)
    ensures forall x: Entry :: x.uflags == top && x in Run(env, ops, events) ==> x in ops
    ensures forall x: Entry :: x.uflags == top && x in ops && x !in Run(env, ops, events) ==>
              exists i: nat :: RemovedBy(env, ops, events, i, x)
  {
    OrdinaryAreBelow(env, ops, events, top);
    ThresholdHolds(env, ops, events, top);
  }

  // ---- chanserv.c

  predicate RegsExist(w: World) {
    forall n :: n in w.online && w.online[n].reg.Some? ==> w.online[n].reg.value in w.nicks
  }

  lemma TidiedWorldTwice(w: World, nick: string, w1: World, w2: World)
    requires TidiedWorld(w, nick, w1) && TidiedWorld(w1, nick, w2)
    ensures TidiedWorld(w, nick, w2)
  {
    if FindUser(w, nick).Some? {
      var u := FindUser(w, nick).value.(registered := false);
      assert w.online[Lower(nick) := u][Lower(nick) := u] == w.online[Lower(nick) := u];
    }
  }

  lemma TidiedTwice(w: World, c: Chan, nick: string, w1: World, c1: Chan, w2: World, c2: Chan)
    requires Tidied(w, c, nick, w1, c1) && Tidied(w1, c1, nick, w2, c2)
    ensures Tidied(w, c, nick, w2, c2)
  {
    TidiedWorldTwice(w, nick, w1, w2);
    if c1 == c && FindUser(w, nick).Some? {
      SameHolder(w, c, nick, w1);
    }
  }

  class ChanServ {
    const s: Services
    var chan: Chan

    constructor (s: Services, chan: Chan)
      ensures this.s == s && this.chan == chan
    {
      this.s := s;
      this.chan := chan;
    }

    // The state is the one at the start of the command, tidied.
    ghost predicate Since(w: World, c: Chan, from: string)
      reads this, s
    {
      RegsExist(w) && Tidied(w, c, from, s.w, chan)
    }

    method Look(from: string, id: bool, ghost w: World, ghost c: Chan) returns (level: int)
      requires Since(w, c, from)
      modifies this, s
      ensures Since(w, c, from) && level == Level(w, s.env, c, from, id)
    {
      ghost var w1, c1 := s.w, chan;
      TidyingChangesNothing(w, s.env, c, from, id, w1, c1);
      var name, akick;
      level, name, akick, chan := s.GetMiscChanOp(chan, from, id);
      TidiedTwice(w, c, from, w1, c1, s.w, chan);
    }

    method LookFounder(from: string, ghost w: World, ghost c: Chan) returns (founder: bool)
      requires Since(w, c, from) && FindUser(w, from).Some?
      modifies this
      ensures Since(w, c, from) && founder == IsFounder(w, s.env, c, FindUser(w, from).value)
    {
      TidyStanding(w, s.env, c, from, s.w, chan);
      ghost var c1 := chan;
      founder, chan := s.IsFounderOf(chan, s.w.online[Lower(from)]);
      TidiedTwice(w, c, from, s.w, c1, s.w, chan);
    }

    method Flagged(from: string, flags: set<Power>, ghost w: World, ghost c: Chan) returns (b: bool)
      requires Since(w, c, from) && FindUser(w, from).Some?
      ensures b == OpFlagged(w, FindUser(w, from).value, flags)
    {
      TidyStanding(w, s.env, c, from, s.w, chan);
      b := OpFlagged(s.w, s.w.online[Lower(from)], flags);
    }

    method FindIndex(id: int) returns (k: Option<nat>)
      ensures k == FindAt(chan.ops, id)
    {
      var i := 0;
      assert chan.ops[0..] == chan.ops;
      while i < |chan.ops|
        invariant i <= |chan.ops|
        invariant FindAt(chan.ops, id) == match FindAt(chan.ops[i..], id) case None => None case Some(k) => Some(i + k)
      {
        if chan.ops[i].nickId == id {
          return Some(i);
        }
        assert chan.ops[i..][1..] == chan.ops[i + 1..];
        i := i + 1;
      }
      return None;
    }

    /** do_chanop_add. */
    method DoChanopAdd(from: string, target: string, tar: int, ghost w: World, ghost c: Chan) returns (ret: Ret)
      requires Since(w, c, from) && FindUser(w, from).Some?
      modifies this, s
      ensures Edited(chan.ops, ret) == Add(w, s.env, c, FindUser(w, from).value, from, target, tar)
    {
      var mylevel := AddAccess(from, w, c);
      var dmod := Flagged(from, {Dmod, Override}, w, c);
      var tarRegNick := FindReg(s.w, target);
      if tarRegNick.None? {
        return NoTarget;
      }
      var targetEntry := FindIndex(tarRegNick.value);
      var maxEdit := MaxEditAdd(mylevel);
      var founder := LookFounder(from, w, c);
      if targetEntry.Some? {
        ret := Modify(targetEntry.value, tar, mylevel, maxEdit, dmod || founder);
      } else {
        var refuses := RefusesAdd(from, tarRegNick.value, w, c);
        ret := AddNew(tarRegNick.value, tar, mylevel, maxEdit, dmod || founder, refuses);
      }
    }

    // Whether the target does not want to be listed and the actor cannot overrule that.
    method RefusesAdd(from: string, id: int, ghost w: World, ghost c: Chan) returns (refuses: bool)
      requires Since(w, c, from) && FindUser(w, from).Some? && id in w.nicks
      ensures refuses == Refuses(w, FindUser(w, from).value, id)
    {
      var dmod := Flagged(from, {Override, Dmod}, w, c);
      var servop := Flagged(from, {Override, Servop}, w, c);
      var oper := s.w.online[Lower(from)].oper;
      refuses := s.w.nicks[id].noAddOp && (!oper || (!servop && !dmod));
    }

    method AddAccess(from: string, ghost w: World, ghost c: Chan) returns (mylevel: int)
      requires Since(w, c, from) && FindUser(w, from).Some?
      modifies this, s
      ensures Since(w, c, from) && mylevel == AddLevel(w, s.env, c, FindUser(w, from).value, from)
    {
      mylevel := Look(from, chan.ident, w, c);
      var dmod := Flagged(from, {Dmod, Override}, w, c);
      if mylevel < FOUNDER && s.w.online[Lower(from)].oper && dmod {
        mylevel := FOUNDER + 1;
      }
    }

    method MaxEditAdd(mylevel: int) returns (maxEdit: int)
      ensures maxEdit == AddRank(mylevel)
    {
      if mylevel <= AOP {
        maxEdit := 0;
      } else if mylevel < MSOP {
        maxEdit := 1;
      } else if mylevel < SOP {
        maxEdit := MAOP;
      } else if mylevel < FOUNDER {
        maxEdit := mylevel - 1;
      } else {
        maxEdit := mylevel;
      }
    }

    method Modify(k: nat, tarLevel: int, mylevel: int, rank: int, privileged: bool) returns (ret: Ret)
      requires k < |chan.ops| && rank == AddRank(mylevel)
      modifies this
      ensures Edited(chan.ops, ret) == Promote(old(chan.ops), k, tarLevel, mylevel, privileged || mylevel == FOUNDER)
    {
      var maxEdit := rank;
      if tarLevel == -1 {
        return Fail;
      }
      if tarLevel < 1 || tarLevel > FOUNDER {
        return EFault;
      }
      var currentlevel := chan.ops[k].uflags;
      if !privileged && mylevel != FOUNDER {
        if maxEdit >= mylevel {
          maxEdit := mylevel - 1;
        }
        if mylevel < tarLevel || maxEdit < tarLevel {
          return NoPerm;
        }
        if maxEdit < currentlevel || mylevel < currentlevel {
          return NoPerm;
        }
      }
      chan := chan.(ops := chan.ops[k := chan.ops[k].(uflags := tarLevel)]);
      return Ok;
    }

    method AddNew(id: int, tar: int, mylevel: int, rank: int, privileged: bool, refuses: bool) returns (ret: Ret)
      requires rank == AddRank(mylevel)
      modifies this
      ensures Edited(chan.ops, ret)
           == Enlist(old(chan.ops), id, tar, mylevel, privileged || mylevel == FOUNDER, refuses)
    {
      var tarLevel, maxEdit := tar, rank;
      if tarLevel == -1 {
        tarLevel := MAOP;
      }
      if !privileged && mylevel != FOUNDER && maxEdit >= FOUNDER {
        maxEdit := FOUNDER - 1;
      }
      if tarLevel > maxEdit {
        return NoPerm;
      }
      if refuses {
        return NoPerm;
      }
      if tarLevel < 1 || tarLevel > FOUNDER {
        return EFault;
      }
      chan := chan.(ops := chan.ops + [Entry(id, if tarLevel == 0 then AOP else tarLevel)]);
      return Ok;
    }

    /** do_chanop_del. */
    method DoChanopDel(from: string, target: string, tar: int, ghost w: World, ghost c: Chan) returns (ret: Ret)
      requires Since(w, c, from) && FindUser(w, from).Some?
      modifies this, s
      ensures Edited(chan.ops, ret) == Del(w, s.env, c, FindUser(w, from).value, from, target, tar)
    {
      var delop := FindNamed(target, tar);
      if delop.None? {
        return NoTarget;
      }
      var k := delop.value;
      var a := DelAccess(from, w, c);
      ret := Remove(k, a, s.w.online[Lower(from)].reg);
    }

    method DelAccess(from: string, ghost w: World, ghost c: Chan) returns (a: int)
      requires Since(w, c, from) && FindUser(w, from).Some?
      modifies this, s
      ensures Since(w, c, from)
      ensures a == if OpFlagged(w, FindUser(w, from).value, {Oper, Dmod, Override}) then FOUNDER
                   else Level(w, s.env, c, from, c.ident)
    {
      a := Look(from, chan.ident, w, c);
      var flagged := Flagged(from, {Oper, Dmod, Override}, w, c);
      if flagged {
        a := FOUNDER;
      }
    }

    method Remove(k: nat, a: int, reg: Option<int>) returns (ret: Ret)
      requires k < |chan.ops|
      modifies this
      ensures Edited(chan.ops, ret) == Unlist(old(chan.ops), k, a, reg)
    {
      var maxEdit := if a < AOP then 0 else if a < MSOP then 1 else if a < SOP then MAOP
                     else if a < FOUNDER then a - 1 else a;
      if chan.ops[k].uflags > maxEdit && reg != Some(chan.ops[k].nickId) {
        return NoPerm;
      }
      chan := chan.(ops := chan.ops[..k] + chan.ops[k + 1..]);
      return Ok;
    }

    // The search for the entry to delete; indexes run from 1 in list order.
    method FindNamed(target: string, tar: int) returns (k: Option<nat>)
      ensures k == Named(s.w, chan.ops, target, tar)
    {
      var x := Atoi(target);
      if x != 0 {
        for i := 0 to |chan.ops|
          invariant !(1 <= x <= i && (tar == -1 || tar == chan.ops[x - 1].uflags))
        {
          if (tar == chan.ops[i].uflags || tar == -1) && i + 1 == x {
            return Some(i);
          }
        }
        return None;
      }
      var id := FindReg(s.w, target);
      if id.None? {
        return None;
      }
      k := FindIndex(id.value);
      if k.Some? && tar != -1 && tar != chan.ops[k.value].uflags {
        k := None;
      }
    }

    /** do_chanop. */
    method DoChanop(m: Command) returns (ret: Ret)
      requires RegsExist(s.w)
      modifies this, s
      ensures Edited(chan.ops, ret) == Edit(old(s.w), s.env, old(chan), m)
    {
      ghost var w, c := s.w, chan;
      var isfrom := FindUser(s.w, m.from);
      if isfrom.None? {
        return Fail;
      }
      var mylevel := Look(m.from, chan.ident, w, c);
      var founder := LookFounder(m.from, w, c);
      if founder {
        mylevel := FOUNDER;
      }
      var operOverride := Flagged(m.from, {Oper, Override}, w, c);
      if AOP > mylevel && !operOverride {
        return NoPerm;
      }
      var override := Flagged(m.from, {Override}, w, c);
      if |chan.ops| >= m.maxOps && m.cmd.AddOp? && !override {
        return if m.flooded then Killed else Fail;
      }
      var all := Flagged(m.from, {Override, Dmod, Oper}, w, c);
      var idLevel := Look(m.from, true, w, c);
      if !all && idLevel < AOP {
        return NoPerm;
      }
      match m.cmd
      case AddOp => ret := DoChanopAdd(m.from, m.target, m.tarLevel, w, c);
      case DelOp => ret := DoChanopDel(m.from, m.target, m.tarLevel, w, c);
      case ListOp => ret := Ok;
    }
  }
}
