/** chanserv.c: what the add and delete commands do to an op list when they succeed, when they do, and what an addition
    is worth to the one who was added. */
module OpOutcomes {
  import opened Text
  import opened ChanAccess
  import opened OpEdits

  lemma {:induction false} FindOpAt(ops: seq<Entry>, id: int)
    ensures FindOp(ops, id) == match FindAt(ops, id) case None => None case Some(k) => Some(ops[k])
    decreases |ops|
  {
    if ops != [] {
      FindOpAt(ops[1..], id);
    }
  }

  lemma {:induction false} FindOpAppend(ops: seq<Entry>, e: Entry, id: int)
    ensures FindOp(ops + [e], id)
         == if FindOp(ops, id).Some? then FindOp(ops, id) else if e.nickId == id then Some(e) else None
    decreases |ops|
  {
    if ops == [] {
      assert [e][1..] == [];
    } else {
      assert (ops + [e])[0] == ops[0] && (ops + [e])[1..] == ops[1..] + [e];
      FindOpAppend(ops[1..], e, id);
    }
  }

  lemma {:induction false} FindOpUpdate(ops: seq<Entry>, k: nat, e: Entry, id: int)
    requires FindAt(ops, e.nickId) == Some(k)
    ensures FindOp(ops[k := e], id) == if id == e.nickId then Some(e) else FindOp(ops, id)
    decreases |ops|
  {
    if k > 0 {
      assert ops[k := e][1..] == ops[1..][k - 1 := e];
      FindOpUpdate(ops[1..], k - 1, e, id);
    } else {
      assert ops[0 := e][1..] == ops[1..];
    }
  }

  /** An addition that succeeds lists the registration of that name at the level asked for, or at MAOP if none was and
      it is new, and leaves what every other registration has as it was. */
  lemma AddTakesEffect(w: World, env: Env, c: Chan, m: Command)
    requires m.cmd.AddOp? && Edit(w, env, c, m).ret == Ok
    ensures FindReg(w, m.target).Some?
    ensures var ops, id := Edit(w, env, c, m).ops, FindReg(w, m.target).value;
            var level := if m.tarLevel == -1 then MAOP else m.tarLevel;
            && 1 <= level <= FOUNDER && FindOp(ops, id) == Some(Entry(id, level))
            && (m.tarLevel == -1 ==> FindOp(c.ops, id).None?)
            && |ops| == |c.ops| + (if FindOp(c.ops, id).Some? then 0 else 1)
            && forall other :: other != id ==> FindOp(ops, other) == FindOp(c.ops, other)
  {
    var ops, id := Edit(w, env, c, m).ops, FindReg(w, m.target).value;
    var level := if m.tarLevel == -1 then MAOP else m.tarLevel;
    FindOpAt(c.ops, id);
    forall other
      ensures FindOp(ops, other) == if other == id then Some(Entry(id, level)) else FindOp(c.ops, other)
    {
      match FindAt(c.ops, id)
      case Some(k) => FindOpUpdate(c.ops, k, Entry(id, level), other);
      case None => FindOpAppend(c.ops, Entry(id, level), other);
    }
  }

  // Entry k is the one that the command names: by its number from 1, or else as the first of that registration; at the
  // level given, if one is.
  predicate Names(w: World, ops: seq<Entry>, m: Command, k: nat) {
    && k < |ops| && (m.tarLevel == -1 || ops[k].uflags == m.tarLevel)
    && if Atoi(m.target) != 0 then Atoi(m.target) == k + 1
       else FindReg(w, m.target) == Some(ops[k].nickId) && forall i :: 0 <= i < k ==> ops[i].nickId != ops[k].nickId
  }

  lemma {:induction false} FirstAt(ops: seq<Entry>, id: int)
    ensures FindAt(ops, id).Some? ==> forall i :: 0 <= i < FindAt(ops, id).value ==> ops[i].nickId != id
    decreases |ops|
  {
    if ops != [] {
      FirstAt(ops[1..], id);
      assert forall i :: 0 < i < |ops| ==> ops[i] == ops[1..][i - 1];
    }
  }

  lemma NamedIs(w: World, ops: seq<Entry>, m: Command, k: nat)
    ensures Names(w, ops, m, k) <==> Named(w, ops, m.target, m.tarLevel) == Some(k)
  {
    var id := FindReg(w, m.target);
    if id.Some? {
      FirstAt(ops, id.value);
    }
  }

  /** A deletion that succeeds takes exactly the entry out that it names, and keeps the order of the others. */
  lemma DelTakesEffect(w: World, env: Env, c: Chan, m: Command)
    requires m.cmd.DelOp? && Edit(w, env, c, m).ret == Ok
    ensures exists k: nat :: Names(w, c.ops, m, k) && Edit(w, env, c, m).ops == c.ops[..k] + c.ops[k + 1..]
  {
    var k := Named(w, c.ops, m.target, m.tarLevel).value;
    NamedIs(w, c.ops, m, k);
  }

  /** A command that does not succeed, or only lists, changes nothing. */
  lemma RefusalsChangeNothing(w: World, env: Env, c: Chan, m: Command)
    requires Edit(w, env, c, m).ret != Ok || m.cmd.ListOp?
    ensures Edit(w, env, c, m).ops == c.ops
  {
  }

  // ---- who may do what

  // The highest level that someone may give, and take away, at each level from 0 to FOUNDER.
  const GIVES := [0, 0, 0, 0, 0, 0, 1, 1, 3, 3, 9, 10, 11, 12, 13, 15]
  const TAKES := [0, 0, 0, 0, 0, 1, 1, 1, 3, 3, 9, 10, 11, 12, 13, 15]

  // Someone online without override, at a level from AOP by the channel's own rule and when identification is required.
  predicate Acts(w: World, env: Env, c: Chan, m: Command) {
    && FindUser(w, m.from).Some? && !FindUser(w, m.from).value.overriding
    && AOP <= Level(w, env, c, m.from, c.ident) <= FOUNDER && AOP <= Level(w, env, c, m.from, true)
  }

  lemma EnlistOk(ops: seq<Entry>, id: int, tar: int, level: int, refuses: bool)
    requires AOP <= level <= FOUNDER
    ensures Enlist(ops, id, tar, level, level == FOUNDER, refuses).ret == Ok <==>
            1 <= (if tar == -1 then MAOP else tar) <= GIVES[level] && !refuses
  {
  }

  lemma PromoteOk(ops: seq<Entry>, k: nat, tar: int, level: int)
    requires AOP <= level <= FOUNDER && k < |ops|
    ensures Promote(ops, k, tar, level, level == FOUNDER).ret == Ok <==>
            1 <= tar <= GIVES[level] && (level == FOUNDER || ops[k].uflags <= GIVES[level])
  {
  }

  /** Someone without override may add a registered nick to a list with room exactly at the levels from 1 that its own
      gives, unless the nick refuses; and may change one exactly within what its level gives, or freely at FOUNDER. */
  lemma AddOkIff(w: World, env: Env, c: Chan, m: Command)
    requires m.cmd.AddOp? && Acts(w, env, c, m) && |c.ops| < m.maxOps && FindReg(w, m.target).Some?
    ensures var id, level := FindReg(w, m.target).value, Level(w, env, c, m.from, c.ident);
            var tar := m.tarLevel;
            Edit(w, env, c, m).ret == Ok <==>
              match FindOp(c.ops, id)
              case None => 1 <= (if tar == -1 then MAOP else tar) <= GIVES[level] && !w.nicks[id].noAddOp
              case Some(e) => 1 <= tar <= GIVES[level] && (level == FOUNDER || e.uflags <= GIVES[level])
  {
    var u, id, level := FindUser(w, m.from).value, FindReg(w, m.target).value, Level(w, env, c, m.from, c.ident);
    FindOpAt(c.ops, id);
    assert IsFounder(w, env, c, u) ==> level == FOUNDER;
    assert Unlimited(w, env, c, u, level) == (level == FOUNDER) && AddLevel(w, env, c, u, m.from) == level;
    assert Edit(w, env, c, m) == Add(w, env, c, u, m.from, m.target, m.tarLevel);
    match FindAt(c.ops, id)
    case None => EnlistOk(c.ops, id, m.tarLevel, level, Refuses(w, u, id));
    case Some(k) => PromoteOk(c.ops, k, m.tarLevel, level);
  }

  /** Someone without override may take out the entry a command names exactly if its level takes that of the entry
      away, or the entry is its own. */
  lemma DelOkIff(w: World, env: Env, c: Chan, m: Command, k: nat)
    requires m.cmd.DelOp? && Acts(w, env, c, m) && Names(w, c.ops, m, k)
    ensures Edit(w, env, c, m).ret == Ok <==>
            c.ops[k].uflags <= TAKES[Level(w, env, c, m.from, c.ident)]
            || FindUser(w, m.from).value.reg == Some(c.ops[k].nickId)
  {
    NamedIs(w, c.ops, m, k);
  }

  /** Whoever is below AOP, and without override, changes nothing. */
  lemma BelowAopChangesNothing(w: World, env: Env, c: Chan, m: Command)
    requires FindUser(w, m.from).Some? && !FindUser(w, m.from).value.overriding
    requires Level(w, env, c, m.from, c.ident) < AOP || Level(w, env, c, m.from, true) < AOP
    ensures Edit(w, env, c, m).ops == c.ops && Edit(w, env, c, m).ret != Ok
  {
  }

  /** Once added, whoever is identified by that nick has at least the level given, on a channel that is neither closed
      nor being transferred. */
  lemma AddGivesLevel(w: World, env: Env, c: Chan, m: Command, w': World, c': Chan, nick: string)
    requires m.cmd.AddOp? && Edit(w, env, c, m).ret == Ok && FindReg(w', nick) == FindReg(w, m.target)
    requires c'.ops == Edit(w, env, c, m).ops && !c'.closed && !c'.forceXfer
    requires FindUser(w', nick).Some? && FindUser(w', nick).value.reg == FindReg(w', nick)
    requires IsIdentified(w', FindUser(w', nick).value, FindReg(w', nick))
    ensures Level(w', env, c', nick, true) >= if m.tarLevel == -1 then MAOP else m.tarLevel
  {
    AddTakesEffect(w, env, c, m);
    var id := FindReg(w, m.target).value;
    var e := FindOp(c'.ops, id).value;
    assert Proven(w', c', FindUser(w', nick).value, nick, e);
    ProvenEntryCounts(w', env, c', nick, e);
  }
}
