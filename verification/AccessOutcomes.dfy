/** chanserv.c: who gets which level on a channel, told from the fields of user, registration and channel. */
module AccessOutcomes {
  import opened Text
  import opened ChanAccess
  import I = Identification

  // A mask of the access list of the registration k matches the user's address.
  predicate Admits(w: World, env: Env, u: User, k: int) {
    && k in w.nicks
    && exists i :: 0 <= i < |w.nicks[k].acl|
                   && env.matches(w.nicks[k].acl[i], Cut(u.user, USERLEN) + "@" + Cut(u.host, HOSTLEN))
  }

  // The user's own registration is k, not away, and the user is recognised for it by level or by address.
  predicate Known(w: World, env: Env, u: User, k: int) {
    && u.reg == Some(k) && k in w.nicks && !w.nicks[k].vacation
    && (u.caccess > ACC_NOT_RECOGNIZED || Admits(w, env, u, k))
  }

  // The override flag is in use, and the user identified by level to a registration that is root or has it.
  predicate Overrides(w: World, u: User) {
    && u.overriding && u.caccess > ACC_RECOGNIZED && u.reg.Some? && u.reg.value in w.nicks
    && var n := w.nicks[u.reg.value];
       !n.vacation && !n.forceXfer && (n.root || Override in n.opflags)
  }

  // The nick has identified to the channel, and the record that did is still online.
  predicate GavePassword(w: World, c: Chan, nick: string) {
    && c.id.nick.Some? && Lower(nick) == Lower(c.id.nick.value) && Lower(nick) in w.online
    && w.online[Lower(nick)].timestamp < c.id.timestamp && w.online[Lower(nick)].idnum == c.id.idnum
  }

  lemma CheckAccessIs(w: World, env: Env, u: User, k: int)
    requires k in w.nicks
    ensures CheckAccess(env, u, w.nicks[k]) <==> Admits(w, env, u, k)
  {
    var address := Cut(u.user, USERLEN) + "@" + Cut(u.host, HOSTLEN);
    MatchesAnyIs(env, w.nicks[k].acl, address, address);
  }

  lemma RecognizedIs(w: World, env: Env, u: User)
    ensures IsRecognized(w, env, u, u.reg) <==> u.reg.Some? && Known(w, env, u, u.reg.value)
  {
    if u.reg.Some? && u.reg.value in w.nicks {
      CheckAccessIs(w, env, u, u.reg.value);
    }
  }

  /** On a channel whose ops are all below FOUNDER, and which is not being transferred, FOUNDER is the level of exactly
      the nick that has identified to it and the users known for the founder's registration, where that gives access;
      where it is closed, of those that are IRC operators. */
  lemma FounderIff(w: World, env: Env, c: Chan, nick: string, id: bool)
    requires !c.forceXfer && AtMost(c.ops, FOUNDER - 1)
    requires FindUser(w, nick).Some? && Lower(FindUser(w, nick).value.nick) == Lower(nick)
    ensures var u := FindUser(w, nick).value;
            Level(w, env, c, nick, id) == FOUNDER
            <==> (c.closed ==> u.oper) && (GavePassword(w, c, nick) || (c.facc && Known(w, env, u, c.founderId)))
  {
    var u := FindUser(w, nick).value;
    RecognizedIs(w, env, u);
    if c.id.nick.Some? {
      SameNameIsLower(u.nick, c.id.nick.value);
    }
    if !IsFounder(w, env, c, u) {
      LevelBound(w, env, c, nick, id, FOUNDER - 1);
    }
  }

  /** A channel being transferred gives whoever overrides the level it gives otherwise, and anyone else none; a closed
      one gives IRC operators what it gives open, and anyone else none. */
  lemma TransferAndClosure(w: World, env: Env, c: Chan, nick: string, id: bool)
    requires FindUser(w, nick).Some?
    ensures var u := FindUser(w, nick).value;
            Level(w, env, c, nick, id) ==
            if (c.closed && !u.oper) || (c.forceXfer && !Overrides(w, u)) then 0
            else Level(w, env, c.(closed := false, forceXfer := false), nick, id)
  {
    var u, open := FindUser(w, nick).value, c.(closed := false, forceXfer := false);
    assert OpFlagged(w, u, {Override}) == Overrides(w, u) by {
      assert {Override} - {Oper} == {Override};
    }
    assert OpLevel(w, env, c, u, nick, id) == OpLevel(w, env, open, u, nick, id);
  }

  // An entry of the list at this level is that of a registration that admits the user's address.
  predicate AdmittedAt(w: World, env: Env, ops: seq<Entry>, u: User, level: int) {
    exists i :: 0 <= i < |ops| && Admits(w, env, u, ops[i].nickId) && ops[i].uflags == level
  }

  lemma {:induction false} AddressLevelIs(w: World, env: Env, ops: seq<Entry>, u: User)
    ensures var l := AddressLevel(w, env, ops, u);
            && (l == 0 || AdmittedAt(w, env, ops, u, l))
            && forall i :: 0 <= i < |ops| && Admits(w, env, u, ops[i].nickId) ==> ops[i].uflags <= l
    decreases |ops|
  {
    if ops != [] {
      AddressLevelIs(w, env, ops[1..], u);
      if ops[0].nickId in w.nicks {
        CheckAccessIs(w, env, u, ops[0].nickId);
      }
      var l := AddressLevel(w, env, ops, u);
      if l != 0 && l == AddressLevel(w, env, ops[1..], u) {
        var i :| 0 <= i < |ops| - 1 && Admits(w, env, u, ops[1..][i].nickId) && ops[1..][i].uflags == l;
        assert ops[i + 1] == ops[1..][i];
      }
      forall i | 0 <= i < |ops| && Admits(w, env, u, ops[i].nickId)
        ensures ops[i].uflags <= l
      {
        if i > 0 {
          assert ops[i] == ops[1..][i - 1];
        }
      }
    }
  }

  // Neither founder nor identified to another nick, on a channel neither closed nor being transferred.
  predicate Ordinary(w: World, env: Env, c: Chan, nick: string) {
    && !c.closed && !c.forceXfer && FindUser(w, nick).Some?
    && var u := FindUser(w, nick).value;
       u.reg == FindReg(w, nick) && u.id.nick.None? && !IsFounder(w, env, c, u)
  }

  // A +r that the timestamps support.
  predicate Confirmed(w: World, u: User) {
    u.registered && u.reg.Some? && u.reg.value in w.nicks && w.nicks[u.reg.value].timereg < u.timestamp <= w.now
  }

  /** Without identification required, whose registration is listed has its level when it is known, and when it only has
      +r at most AOP of it. */
  lemma KnownGetsEntry(w: World, env: Env, c: Chan, nick: string)
    requires Ordinary(w, env, c, nick)
    requires var u := FindUser(w, nick).value;
             && u.reg.Some? && FindOp(c.ops, u.reg.value).Some? && FindOp(c.ops, u.reg.value).value.uflags > 0
             && (Known(w, env, u, u.reg.value) || Confirmed(w, u))
    ensures var u := FindUser(w, nick).value;
            var flags := FindOp(c.ops, u.reg.value).value.uflags;
            Level(w, env, c, nick, false) == if Known(w, env, u, u.reg.value) then flags else Min(AOP, flags)
  {
    RecognizedIs(w, env, FindUser(w, nick).value);
  }

  /** Anyone else has the highest level among the entries whose registration admits the address, or none. */
  lemma OthersGetAddress(w: World, env: Env, c: Chan, nick: string)
    requires Ordinary(w, env, c, nick)
    requires var u := FindUser(w, nick).value;
             u.reg.None? || FindOp(c.ops, u.reg.value).None? || (!Known(w, env, u, u.reg.value) && !Confirmed(w, u))
    ensures var u, level := FindUser(w, nick).value, Level(w, env, c, nick, false);
            && (level <= 0 || AdmittedAt(w, env, c.ops, u, level))
            && forall i :: 0 <= i < |c.ops| && Admits(w, env, u, c.ops[i].nickId) ==>
                             c.ops[i].uflags <= 0 || c.ops[i].uflags <= level
  {
    var u := FindUser(w, nick).value;
    RecognizedIs(w, env, u);
    AddressLevelIs(w, env, c.ops, u);
  }

  /** Who signs on is identified to nothing, and recognised exactly if the access list of the nick's registration admits
      the address. */
  lemma SignOnRecognizesIff(s: I.State, env: Env, nick: string, user: string, host: string, ts: int, idnum: int)
    requires FindUser(s.w, nick).None?
    ensures var t := I.Step(s, env, I.SignOn(nick, user, host, ts, idnum));
            && FindUser(t.w, nick).Some?
            && var u := FindUser(t.w, nick).value;
               && u.user == user && u.host == host && u.id.nick.None? && u.caccess <= ACC_RECOGNIZED
               && (u.caccess == ACC_RECOGNIZED <==>
                     FindReg(s.w, nick).Some? && Admits(s.w, env, u, FindReg(s.w, nick).value))
  {
    var u := I.SignedOn(s.w, env, nick, user, host, ts, idnum);
    if FindReg(s.w, nick).Some? {
      CheckAccessIs(s.w, env, u, FindReg(s.w, nick).value);
    }
  }

  /** A change to another nick that is free leaves the user recognised for it exactly if its access list admits the
      address, unless the change identifies; the old nick is then free. */
  lemma NickChangeRecognizesIff(s: I.State, env: Env, u: User, to: string, ts: int, idnum: int)
    requires FindUser(s.w, u.nick) == Some(u) && FindUser(s.w, to).None?
    ensures var t := I.Step(s, env, I.ChangeNick(u.nick, to, ts, idnum));
            && FindUser(t.w, u.nick).None? && FindUser(t.w, to).Some?
            && var v := FindUser(t.w, to).value;
               && v.user == u.user && v.host == u.host && v.nick == to && v.reg == FindReg(s.w, to)
               && (v.caccess <= ACC_RECOGNIZED ==>
                     (v.caccess == ACC_RECOGNIZED <==> v.reg.Some? && Admits(s.w, env, u, v.reg.value)))
  {
    SameNameIsLower(to, u.nick);
    var k := FindReg(s.w, to);
    if k.Some? {
      CheckAccessIs(s.w, env, u, k.value);
    }
  }
}
