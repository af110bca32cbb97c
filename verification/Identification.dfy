/** nickserv.c: how a user comes to be identified to a registration, across sign-ons, IDENTIFY, LOGOFF, registrations
    that come and go, and nick changes. */
module Identification {
  import opened Text
  import opened ChanAccess

  const ACC_OFFLINE := 0
  const ACC_IDENTIFIED := 3
  const ACC_DIGEST_AUTH := 4

  /** The tables, the next registration id, and for each nick online the registrations whose password the person
      behind it has given, or that it made. */
  datatype State = State(w: World, next: int, proved: map<string, set<int>>)

  // ---- nickserv.c as functions

  function Later(a: int, b: int): int {
    if a < b then b else a
  }

  // setIdentify
  function IdentifiedTo(w: World, u: User, k: int): User
    requires k in w.nicks
  {
    u.(id := Ident(Some(w.nicks[k].nick), Later(u.timestamp, w.now), k))
  }

  // What changeNick makes of an identification to another nick: it is dropped if that has a new owner.
  function Carried(w: World, u: User, ts: int): Ident {
    if u.id.nick.None? then NO_IDENT
    else
      match FindReg(w, u.id.nick.value)
      case None => NO_IDENT
      case Some(k) => if w.nicks[k].timereg < u.id.timestamp then Ident(u.id.nick, ts, u.id.idnum) else NO_IDENT
  }

  // The user changes to the very nick it has identified to.
  predicate ComesHome(w: World, id: Ident, to: string, k: int)
    requires k in w.nicks
  {
    && id.timestamp != 0 && id.nick.Some? && id.timestamp > w.nicks[k].timereg
    && id.idnum == k && SameName(id.nick.value, to)
  }

  // The record that changeNick makes.
  function Renamed(w: World, env: Env, u: User, to: string, ts: int, idnum: int): User {
    var v := u.(nick := to, timestamp := ts, idnum := idnum, id := Carried(w, u, ts), reg := FindReg(w, to),
                registered := false, caccess := ACC_OFFLINE);
    match v.reg
    case None => v
    case Some(k) =>
      if ComesHome(w, v.id, to, k) then v.(id := NO_IDENT, caccess := ACC_IDENTIFIED)
      else if SameName(to, u.nick) then v.(caccess := u.caccess)
      else if CheckAccess(env, v, w.nicks[k]) then v.(caccess := ACC_RECOGNIZED)
      else v
  }

  // REGISTER is refused to a record that has a registration; on a nick that is listed all the same addRegNick aborts.
  // Enter is a registration made by somebody else, by BANISH or over the IPC socket; Change one whose fields, but not
  // the nick, are set anew; Delete any but DROP that removes one.
  datatype Event =
    | SignOn(nick: string, user: string, host: string, ts: int, idnum: int)
    | Quit(nick: string)
    | Identify(nick: string, target: Option<string>, correct: bool, digest: bool)
    | Logoff(nick: string)
    | ModeR(nick: string, on: bool)
    | Register(nick: string, reg: RegNick)
    | Enter(reg: RegNick)
    | Change(name: string, reg: RegNick)
    | Drop(nick: string)
    | Delete(name: string)
    | ChangeNick(nick: string, to: string, ts: int, idnum: int)
    | Tick(now: int)

  function WithUser(s: State, u: User): State {
    s.(w := s.w.(online := s.w.online[Lower(u.nick) := u]))
  }

  function Proving(s: State, n: string, k: int): State {
    s.(proved := s.proved[n := (if n in s.proved then s.proved[n] else {}) + {k}])
  }

  function SignedOn(w: World, env: Env, nick: string, user: string, host: string, ts: int, idnum: int): User {
    var u := User(nick, user, host, ts, idnum, FindReg(w, nick), NO_IDENT, ACC_OFFLINE, false, false, false);
    match u.reg
    case None => u
    case Some(k) => u.(caccess := if CheckAccess(env, u, w.nicks[k]) then ACC_RECOGNIZED else ACC_NOT_RECOGNIZED)
  }

  // The password of its own nick: the record gets the level, the registration the case of the nick.
  function IdentifiedOwn(s: State, u: User, k: int, level: int): State
    requires k in s.w.nicks
  {
    var s1 := s.(w := s.w.(nicks := s.w.nicks[k := s.w.nicks[k].(nick := u.nick)]));
    Proving(WithUser(s1, u.(caccess := level)), Lower(u.nick), k)
  }

  // ns_identify and ns_auth, on the registration k.
  function Identified(s: State, u: User, k: int, correct: bool, digest: bool): State
    requires k in s.w.nicks
  {
    if correct && (digest || !s.w.nicks[k].forceXfer) then
      if u.reg == Some(k) then
        IdentifiedOwn(s, u, k, if digest then ACC_DIGEST_AUTH else ACC_IDENTIFIED)
      else Proving(WithUser(s, IdentifiedTo(s.w, u, k)), Lower(u.nick), k)
    else if u.reg == Some(k) && !digest then WithUser(s, u.(caccess := ACC_NOT_RECOGNIZED))
    else s
  }

  // A new registration, which addRegNick lists under its nick.
  function Listed(s: State, reg: RegNick): State {
    s.(w := s.w.(nicks := s.w.nicks[s.next := reg], names := s.w.names[Lower(reg.nick) := s.next]), next := s.next + 1)
  }

  function Unlisted(s: State, k: int): State
    requires k in s.w.nicks
  {
    s.(w := s.w.(nicks := s.w.nicks - {k}, names := s.w.names - {Lower(s.w.nicks[k].nick)}))
  }

  function Left(s: State, n: string): State {
    s.(w := s.w.(online := s.w.online - {n}), proved := s.proved - {n})
  }

  // The ircd lets nobody take a nick that is in use.
  function ChangedNick(s: State, env: Env, u: User, to: string, ts: int, idnum: int): State {
    var n, n' := Lower(u.nick), Lower(to);
    if n' != n && n' in s.w.online then s
    else
      var online := (s.w.online - {n})[n' := Renamed(s.w, env, u, to, ts, idnum)];
      var proved := (s.proved - {n})[n' := if n in s.proved then s.proved[n] else {}];
      s.(w := s.w.(online := online), proved := proved)
  }

  function Target(w: World, u: User, target: Option<string>): Option<int> {
    match target
    case None => if u.reg.Some? && u.reg.value in w.nicks then u.reg else None
    case Some(name) => FindReg(w, name)
  }

  function OnUser(s: State, env: Env, u: User, e: Event): State {
    match e
    case Identify(_, target, correct, digest) =>
      (match Target(s.w, u, target)
       case None => s
       case Some(k) => Identified(s, u, k, correct, digest))
    case Logoff(_) =>
      WithUser(s, u.(id := NO_IDENT, caccess := if u.caccess > ACC_RECOGNIZED then ACC_RECOGNIZED else u.caccess))
    case ModeR(_, on) => WithUser(s, u.(registered := on))
    case Register(_, reg) =>
      if u.reg.Some? || FindReg(s.w, u.nick).Some? then s
      else
        Proving(WithUser(Listed(s, reg.(nick := u.nick)), u.(reg := Some(s.next), caccess := ACC_IDENTIFIED)),
                Lower(u.nick), s.next)
    case Drop(_) =>
      if u.reg.Some? && IsIdentified(s.w, u, u.reg) then WithUser(Unlisted(s, u.reg.value), u.(reg := None)) else s
    case ChangeNick(_, to, ts, idnum) => ChangedNick(s, env, u, to, ts, idnum)
    case Quit(nick) => Left(s, Lower(nick))
    case _ => s
  }

  function Step(s: State, env: Env, e: Event): State {
    match e
    case SignOn(nick, user, host, ts, idnum) =>
      if Lower(nick) in s.w.online then s
      else
        var t := WithUser(s, SignedOn(s.w, env, nick, user, host, ts, idnum));
        t.(proved := t.proved[Lower(nick) := {}])
    case Enter(reg) => if FindReg(s.w, reg.nick).Some? then s else Listed(s, reg)
    case Change(name, reg) =>
      (match FindReg(s.w, name)
       case None => s
       case Some(k) => s.(w := s.w.(nicks := s.w.nicks[k := reg.(nick := s.w.nicks[k].nick)])))
    case Delete(name) =>
      (match FindReg(s.w, name)
       case None => s
       case Some(k) => Unlisted(s, k))
    case Tick(now) => s.(w := s.w.(now := now))
    case _ => if FindUser(s.w, e.nick).Some? then OnUser(s, env, FindUser(s.w, e.nick).value, e) else s
  }

  // ---- the invariant

  ghost predicate UserOk(s: State, n: string)
    requires n in s.w.online
  {
    var u := s.w.online[n];
    && Lower(u.nick) == n && n in s.proved
    && (forall k :: k in s.proved[n] ==> k < s.next)
    && (u.reg.Some? ==> u.reg.value < s.next
                        && (u.reg.value in s.w.nicks ==> Lower(s.w.nicks[u.reg.value].nick) == n))
    && (u.reg.Some? && u.caccess > ACC_RECOGNIZED ==> u.reg.value in s.proved[n])
    && (u.id.nick.Some? ==> u.id.idnum in s.proved[n])
  }

  // Each registration is found under its nick.
  ghost predicate NamesOk(s: State) {
    && (forall k :: k in s.w.nicks ==> k < s.next && Lower(s.w.nicks[k].nick) in s.w.names
                                       && s.w.names[Lower(s.w.nicks[k].nick)] == k)
    && forall n :: n in s.w.names ==> s.w.names[n] in s.w.nicks && Lower(s.w.nicks[s.w.names[n]].nick) == n
  }

  /** Whoever has a level above recognition for its nick, or an identification to another, has given the password of
      that registration or made it. */
  ghost predicate Valid(s: State) {
    NamesOk(s) && forall n {:trigger UserOk(s, n)} :: n in s.w.online ==> UserOk(s, n)
  }

  /** So identification is proof. */
  lemma IdentifiedIsProved(s: State, n: string, k: int)
    requires Valid(s) && n in s.w.online && IsIdentified(s.w, s.w.online[n], Some(k))
    ensures n in s.proved && k in s.proved[n]
  {
    assert UserOk(s, n);
  }

  // changeNick hands a level above recognition on to a registration that the person has not proved.
  predicate HandsOn(s: State, u: User, to: string, ts: int) {
    && SameName(to, u.nick) && u.caccess > ACC_RECOGNIZED
    && FindReg(s.w, to).Some?
    && var k := FindReg(s.w, to).value;
       !ComesHome(s.w, Carried(s.w, u, ts), to, k) && !(Lower(u.nick) in s.proved && k in s.proved[Lower(u.nick)])
  }

  // A nick change in case alone, or to a nick that is free: the only ones that change anything.
  predicate Changes(s: State, e: Event) {
    e.ChangeNick? && FindUser(s.w, e.nick).Some? &&
    (Lower(e.to) == Lower(e.nick) || Lower(e.to) !in s.w.online)
  }

  predicate Keeps(s: State, e: Event) {
    Changes(s, e) ==> !HandsOn(s, FindUser(s.w, e.nick).value, e.to, e.ts)
  }

  // Users other than n are as they were, or n is gone.
  lemma OthersOk(s: State, t: State, n: string)
    requires Valid(s) && NamesOk(t) && s.next <= t.next
    requires forall m :: m in t.w.online && m != n ==>
               && m in s.w.online && t.w.online[m] == s.w.online[m]
               && (m in s.proved ==> m in t.proved && t.proved[m] == s.proved[m])
    requires forall k :: k in t.w.nicks ==>
               k >= s.next || (k in s.w.nicks && Lower(t.w.nicks[k].nick) == Lower(s.w.nicks[k].nick))
    requires n in t.w.online ==> UserOk(t, n)
    ensures Valid(t)
  {
    forall m | m in t.w.online
      ensures UserOk(t, m)
    {
      if m != n {
        assert UserOk(s, m);
      }
    }
  }

  lemma ListedNames(s: State, reg: RegNick)
    requires NamesOk(s) && FindReg(s.w, reg.nick).None?
    ensures NamesOk(Listed(s, reg))
  {
    var t := Listed(s, reg);
    forall k | k in t.w.nicks
      ensures k < t.next && Lower(t.w.nicks[k].nick) in t.w.names && t.w.names[Lower(t.w.nicks[k].nick)] == k
    {
      if k != s.next {
        assert Lower(s.w.nicks[k].nick) != Lower(reg.nick);
      }
    }
  }

  lemma UnlistedNames(s: State, k: int)
    requires NamesOk(s) && k in s.w.nicks
    ensures NamesOk(Unlisted(s, k))
  {
    var t, n := Unlisted(s, k), Lower(s.w.nicks[k].nick);
    forall j | j in t.w.nicks
      ensures Lower(t.w.nicks[j].nick) in t.w.names && t.w.names[Lower(t.w.nicks[j].nick)] == j
    {
      assert Lower(s.w.nicks[j].nick) != n;
    }
    forall m | m in t.w.names
      ensures t.w.names[m] in t.w.nicks && Lower(t.w.nicks[t.w.names[m]].nick) == m
    {
      assert s.w.names[m] in s.w.nicks && Lower(s.w.nicks[s.w.names[m]].nick) == m;
    }
  }

  // The record of someone online, under its key.
  ghost predicate IsOnline(s: State, u: User) {
    Lower(u.nick) in s.w.online && s.w.online[Lower(u.nick)] == u
  }

  lemma IdentifiedOwnOk(s: State, u: User, k: int, level: int)
    requires Valid(s) && IsOnline(s, u) && k in s.w.nicks && u.reg == Some(k)
    ensures Valid(IdentifiedOwn(s, u, k, level))
  {
    var t, n := IdentifiedOwn(s, u, k, level), Lower(u.nick);
    assert UserOk(s, n);
    assert NamesOk(t);
    assert UserOk(t, n);
    OthersOk(s, t, n);
  }

  lemma IdentifiedOtherOk(s: State, u: User, k: int)
    requires Valid(s) && IsOnline(s, u) && k in s.w.nicks
    ensures Valid(Proving(WithUser(s, IdentifiedTo(s.w, u, k)), Lower(u.nick), k))
  {
    var n := Lower(u.nick);
    var t := Proving(WithUser(s, IdentifiedTo(s.w, u, k)), n, k);
    assert UserOk(s, n);
    assert UserOk(t, n);
    OthersOk(s, t, n);
  }

  lemma IdentifiedOk(s: State, u: User, k: int, correct: bool, digest: bool)
    requires Valid(s) && IsOnline(s, u) && k in s.w.nicks
    ensures Valid(Identified(s, u, k, correct, digest))
  {
    var level := if digest then ACC_DIGEST_AUTH else ACC_IDENTIFIED;
    if correct && (digest || !s.w.nicks[k].forceXfer) {
      if u.reg == Some(k) {
        IdentifiedOwnOk(s, u, k, level);
      } else {
        IdentifiedOtherOk(s, u, k);
      }
    } else {
      SettingOk(s, u, u.(caccess := ACC_NOT_RECOGNIZED));
    }
  }

  lemma RegisterOk(s: State, env: Env, u: User, reg: RegNick)
    requires Valid(s) && IsOnline(s, u)
    ensures Valid(OnUser(s, env, u, Register(u.nick, reg)))
  {
    var t, n := OnUser(s, env, u, Register(u.nick, reg)), Lower(u.nick);
    if t != s {
      assert UserOk(s, n);
      ListedNames(s, reg.(nick := u.nick));
      assert UserOk(t, n);
      OthersOk(s, t, n);
    }
  }

  lemma DropOk(s: State, env: Env, u: User)
    requires Valid(s) && IsOnline(s, u)
    ensures Valid(OnUser(s, env, u, Drop(u.nick)))
  {
    var t, n := OnUser(s, env, u, Drop(u.nick)), Lower(u.nick);
    if t != s {
      assert UserOk(s, n);
      UnlistedNames(s, u.reg.value);
      assert UserOk(t, n);
      OthersOk(s, t, n);
    }
  }

  lemma SettingOk(s: State, u: User, v: User)
    requires Valid(s) && IsOnline(s, u) && v.nick == u.nick && v.reg == u.reg && (v.id == u.id || v.id == NO_IDENT)
    requires v.caccess == u.caccess || v.caccess <= ACC_RECOGNIZED
    ensures Valid(WithUser(s, v))
  {
    var n := Lower(u.nick);
    assert UserOk(s, n);
    assert UserOk(WithUser(s, v), n);
    OthersOk(s, WithUser(s, v), n);
  }

  lemma LeftOk(s: State, n: string)
    requires Valid(s)
    ensures Valid(Left(s, n))
  {
    OthersOk(s, Left(s, n), n);
  }

  lemma RegistryOk(s: State, t: State)
    requires Valid(s) && NamesOk(t) && s.next <= t.next && t.w.online == s.w.online && t.proved == s.proved
    requires forall k :: k in t.w.nicks ==>
               k >= s.next || (k in s.w.nicks && Lower(t.w.nicks[k].nick) == Lower(s.w.nicks[k].nick))
    ensures Valid(t)
  {
    forall n | n in t.w.online
      ensures UserOk(t, n)
    {
      assert UserOk(s, n);
    }
  }

  // The new record is in order exactly if nothing is handed on.
  lemma RenamedOk(s: State, env: Env, u: User, to: string, ts: int, idnum: int)
    requires Valid(s) && IsOnline(s, u)
    ensures var n, v := Lower(u.nick), Renamed(s.w, env, u, to, ts, idnum);
            && n in s.proved && Lower(v.nick) == Lower(to)
            && (v.reg.Some? ==> v.reg.value in s.w.nicks && Lower(s.w.nicks[v.reg.value].nick) == Lower(to))
            && (v.id.nick.Some? ==> v.id.idnum in s.proved[n])
            && ((v.reg.Some? && v.caccess > ACC_RECOGNIZED ==> v.reg.value in s.proved[n]) <==> !HandsOn(s, u, to, ts))
  {
    var n := Lower(u.nick);
    assert UserOk(s, n);
    var k := FindReg(s.w, to);
    if k.Some? {
      assert Lower(s.w.nicks[k.value].nick) == Lower(to);
    }
  }

  lemma ChangeNickKeepsIff(s: State, env: Env, u: User, to: string, ts: int, idnum: int)
    requires Valid(s) && IsOnline(s, u)
    requires Lower(to) == Lower(u.nick) || Lower(to) !in s.w.online
    ensures Valid(ChangedNick(s, env, u, to, ts, idnum)) <==> !HandsOn(s, u, to, ts)
  {
    var t, n' := ChangedNick(s, env, u, to, ts, idnum), Lower(to);
    RenamedOk(s, env, u, to, ts, idnum);
    assert UserOk(s, Lower(u.nick));
    if !HandsOn(s, u, to, ts) {
      assert UserOk(t, n');
      OthersOk(s, t, n');
    } else {
      assert !UserOk(t, n');
    }
  }

  lemma SignOnOk(s: State, env: Env, e: Event)
    requires Valid(s) && e.SignOn?
    ensures Valid(Step(s, env, e))
  {
    var t, n := Step(s, env, e), Lower(e.nick);
    if n !in s.w.online {
      var k := FindReg(s.w, e.nick);
      assert k.Some? ==> Lower(s.w.nicks[k.value].nick) == n;
      assert UserOk(t, n);
      OthersOk(s, t, n);
    }
  }

  lemma OnUserKeepsIff(s: State, env: Env, u: User, e: Event)
    requires Valid(s) && IsOnline(s, u)
    requires !e.SignOn? && !e.Enter? && !e.Change? && !e.Delete? && !e.Tick? && Lower(e.nick) == Lower(u.nick)
    requires e.ChangeNick? ==> Lower(e.to) == Lower(u.nick) || Lower(e.to) !in s.w.online
    ensures Valid(OnUser(s, env, u, e)) <==> !(e.ChangeNick? && HandsOn(s, u, e.to, e.ts))
  {
    match e
    case Identify(_, target, correct, digest) =>
      var k := Target(s.w, u, target);
      if k.Some? {
        IdentifiedOk(s, u, k.value, correct, digest);
      }
    case Logoff(_) =>
      SettingOk(s, u, u.(id := NO_IDENT, caccess := if u.caccess > ACC_RECOGNIZED then ACC_RECOGNIZED else u.caccess));
    case ModeR(_, on) => SettingOk(s, u, u.(registered := on));
    case Register(_, reg) => RegisterOk(s, env, u, reg);
    case Drop(_) => DropOk(s, env, u);
    case ChangeNick(_, to, ts, idnum) => ChangeNickKeepsIff(s, env, u, to, ts, idnum);
    case Quit(nick) => LeftOk(s, Lower(nick));
  }

  lemma StepKeepsIff(s: State, env: Env, e: Event)
    requires Valid(s)
    ensures Valid(Step(s, env, e)) <==> Keeps(s, e)
  {
    match e
    case SignOn(_, _, _, _, _) => SignOnOk(s, env, e);
    case Enter(reg) =>
      if FindReg(s.w, reg.nick).None? {
        ListedNames(s, reg);
        RegistryOk(s, Listed(s, reg));
      }
    case Change(name, reg) => RegistryOk(s, Step(s, env, e));
    case Delete(name) =>
      var k := FindReg(s.w, name);
      if k.Some? {
        UnlistedNames(s, k.value);
        RegistryOk(s, Unlisted(s, k.value));
      }
    case Tick(now) => RegistryOk(s, Step(s, env, e));
    case _ =>
      var u := FindUser(s.w, e.nick);
      if u.Some? {
        assert UserOk(s, Lower(e.nick));
        if e.ChangeNick? ==> Changes(s, e) {
          OnUserKeepsIff(s, env, u.value, e);
        }
      }
  }

  // ---- whole runs

  function Run(s: State, env: Env, events: seq<Event>): State
    decreases |events|
  {
    if events == [] then s else Run(Step(s, env, events[0]), env, events[1..])
  }

  predicate KeepsRun(s: State, env: Env, events: seq<Event>)
    decreases |events|
  {
    events == [] || (Keeps(s, events[0]) && KeepsRun(Step(s, env, events[0]), env, events[1..]))
  }

  ghost predicate StaysValid(s: State, env: Env, events: seq<Event>)
    decreases |events|
  {
    Valid(s) && (events == [] || StaysValid(Step(s, env, events[0]), env, events[1..]))
  }

  /** A run keeps identification a proof throughout exactly if no nick change in case alone hands a level above
      recognition on to a registration that its user has not proved. */
  lemma {:induction false} IdentificationHolds(s: State, env: Env, events: seq<Event>)
    requires Valid(s)
    ensures StaysValid(s, env, events) <==> KeepsRun(s, env, events)
    ensures KeepsRun(s, env, events) ==> Valid(Run(s, env, events))
    decreases |events|
  {
    if events != [] {
      StepKeepsIff(s, env, events[0]);
      if Keeps(s, events[0]) {
        IdentificationHolds(Step(s, env, events[0]), env, events[1..]);
      }
    }
  }

  const START := State(World(map[], map[], map[], 0), 0, map[])

  /** So it is from empty tables on. */
  lemma IdentificationHoldsFromStart(env: Env, events: seq<Event>)
    ensures StaysValid(START, env, events) <==> KeepsRun(START, env, events)
    ensures KeepsRun(START, env, events) ==> Valid(Run(START, env, events))
  {
    IdentificationHolds(START, env, events);
  }

  /** After such a run, a level above AOP with identification required, for anyone but the founder, is that of an entry
      whose registration the person has given the password of or made. */
  lemma LevelIsProved(env: Env, events: seq<Event>, c: Chan, nick: string)
    requires KeepsRun(START, env, events)
    ensures var s := Run(START, env, events);
            var level := Level(s.w, env, c, nick, true);
            level > AOP ==>
              && FindUser(s.w, nick).Some? && Lower(nick) in s.proved
              && (IsFounder(s.w, env, c, FindUser(s.w, nick).value)
                  || exists e :: e in c.ops && e.uflags == level && e.nickId in s.proved[Lower(nick)])
  {
    IdentificationHoldsFromStart(env, events);
    var s := Run(START, env, events);
    EntryIsProved(s, env, c, nick);
  }

  lemma EntryIsProved(s: State, env: Env, c: Chan, nick: string)
    requires Valid(s)
    ensures var level := Level(s.w, env, c, nick, true);
            level > AOP ==>
              && FindUser(s.w, nick).Some? && Lower(nick) in s.proved
              && (IsFounder(s.w, env, c, FindUser(s.w, nick).value)
                  || exists e :: e in c.ops && e.uflags == level && e.nickId in s.proved[Lower(nick)])
  {
    var level, n := Level(s.w, env, c, nick, true), Lower(nick);
    if level > AOP {
      var u := FindUser(s.w, nick).value;
      assert UserOk(s, n);
      IdentifiedLevelIsProven(s.w, env, c, nick);
      if !IsFounder(s.w, env, c, u) {
        var e :| e in c.ops && e.uflags == level && Proven(s.w, c, u, nick, e);
        ProvenIsProved(s, c, u, nick, e);
      }
    }
  }

  lemma ProvenIsProved(s: State, c: Chan, u: User, nick: string, e: Entry)
    requires Valid(s) && FindUser(s.w, nick) == Some(u) && Proven(s.w, c, u, nick, e)
    ensures Lower(nick) in s.proved && e.nickId in s.proved[Lower(nick)]
  {
    var n := Lower(nick);
    assert UserOk(s, n);
    if IsIdentified(s.w, u, u.reg) && ListedAs(s.w, c, nick, e) {
      IdentifiedIsProved(s, n, u.reg.value);
    } else {
      var k := FindReg(s.w, u.id.nick.value).value;
      IdentifiedIsProved(s, n, k);
    }
  }

  // ---- what identification takes

  /** With identification required, whoever is recognised at most, has identified to no other nick and has no +r has no
      level, unless it is the founder. */
  lemma UnidentifiedHasNoLevel(w: World, env: Env, c: Chan, nick: string)
    requires FindUser(w, nick).Some? && !IsFounder(w, env, c, FindUser(w, nick).value)
    requires var u := FindUser(w, nick).value;
             u.caccess <= ACC_RECOGNIZED && (u.id.nick.None? || u.id.timestamp == 0) && !u.registered
    ensures Level(w, env, c, nick, true) <= 0
  {
  }

  // No access list of a registration has a mask that the user's address matches.
  predicate Unknown(w: World, env: Env, u: User) {
    var address := Cut(u.user, USERLEN) + "@" + Cut(u.host, HOSTLEN);
    forall k :: k in w.nicks ==> NoneMatches(env, w.nicks[k].acl, address)
  }

  predicate NoneMatches(env: Env, masks: seq<string>, s: string) {
    forall i :: 0 <= i < |masks| ==> !env.matches(masks[i], s)
  }

  lemma {:induction false} NoMatch(env: Env, masks: seq<string>, s: string)
    requires NoneMatches(env, masks, s)
    ensures !MatchesAny(env, masks, s, s)
  {
    if masks != [] {
      NoMatch(env, masks[1..], s);
    }
  }

  lemma UnknownTo(w: World, env: Env, u: User, k: int)
    requires Unknown(w, env, u) && k in w.nicks
    ensures !CheckAccess(env, u, w.nicks[k])
  {
    var address := Cut(u.user, USERLEN) + "@" + Cut(u.host, HOSTLEN);
    assert NoneMatches(env, w.nicks[k].acl, address);
    NoMatch(env, w.nicks[k].acl, address);
  }

  lemma {:induction false} UnknownHasNoAddress(w: World, env: Env, ops: seq<Entry>, u: User)
    requires Unknown(w, env, u)
    ensures AddressLevel(w, env, ops, u) == 0
    decreases |ops|
  {
    if ops != [] {
      UnknownHasNoAddress(w, env, ops[1..], u);
      if ops[0].nickId in w.nicks {
        UnknownTo(w, env, u, ops[0].nickId);
      }
    }
  }

  /** A stranger, whose address no access list knows, who is not recognised, has identified to nothing and has no +r,
      has no level in either mode on a channel that nobody has identified to. */
  lemma StrangerHasNoLevel(w: World, env: Env, c: Chan, nick: string, id: bool)
    requires FindUser(w, nick).Some? && c.id.nick.None?
    requires var u := FindUser(w, nick).value;
             && u.caccess <= ACC_NOT_RECOGNIZED && (u.id.nick.None? || u.id.timestamp == 0) && !u.registered
             && Unknown(w, env, u)
    ensures Level(w, env, c, nick, id) <= 0
  {
    var u := FindUser(w, nick).value;
    UnknownHasNoAddress(w, env, c.ops, u);
    if u.reg.Some? && u.reg.value in w.nicks {
      UnknownTo(w, env, u, u.reg.value);
    }
  }

  /** With an identification to another nick alone, the level is that of the entry for that nick, if the nick is still
      spelt so, has the number, is neither away nor being transferred, and was registered before the identification,
      which the user's own nick is not newer than; else there is none. */
  lemma RemoteLevelIs(w: World, env: Env, c: Chan, nick: string)
    requires FindUser(w, nick).Some? && !IsFounder(w, env, c, FindUser(w, nick).value)
    requires !c.forceXfer && (c.closed ==> FindUser(w, nick).value.oper)
    requires var u := FindUser(w, nick).value;
             u.caccess <= ACC_RECOGNIZED && u.id.nick.Some? && u.id.timestamp != 0 && !u.registered
    ensures var u := FindUser(w, nick).value;
            var k := FindReg(w, u.id.nick.value);
            var counts := && k.Some? && k != u.reg && k.value == u.id.idnum && w.nicks[k.value].nick == u.id.nick.value
                          && !w.nicks[k.value].vacation && !w.nicks[k.value].forceXfer
                          && w.nicks[k.value].timereg < u.id.timestamp && u.timestamp <= u.id.timestamp
                          && FindOp(c.ops, k.value).Some? && FindOp(c.ops, k.value).value.uflags > 0;
            if counts && FindReg(w, w.nicks[k.value].nick) == k then
              Level(w, env, c, nick, true) == FindOp(c.ops, k.value).value.uflags
            else Level(w, env, c, nick, true) <= 0
  {
  }

  /** The right password identifies a user to its own nick, and to another if that was registered before now or before
      the user came by its nick; unless the registration is away or being transferred. */
  lemma IdentifyIdentifies(s: State, env: Env, nick: string, target: Option<string>, digest: bool)
    requires Valid(s) && FindUser(s.w, nick).Some? && Target(s.w, FindUser(s.w, nick).value, target).Some?
    ensures var u, t := FindUser(s.w, nick).value, Step(s, env, Identify(nick, target, true, digest));
            var k := Target(s.w, u, target).value;
            && FindUser(t.w, nick).Some?
            && (IsIdentified(t.w, FindUser(t.w, nick).value, Some(k)) <==>
                  && !s.w.nicks[k].vacation && !s.w.nicks[k].forceXfer
                  && (u.reg != Some(k) ==>
                        s.w.nicks[k].timereg < Later(u.timestamp, s.w.now) && Later(u.timestamp, s.w.now) != 0))
  {
    assert UserOk(s, Lower(nick));
  }

  /** After LOGOFF the user is identified to nothing. */
  lemma LogoffEnds(s: State, env: Env, nick: string)
    requires FindUser(s.w, nick).Some? && Lower(FindUser(s.w, nick).value.nick) == Lower(nick)
    ensures var t := Step(s, env, Logoff(nick));
            && FindUser(t.w, nick).Some?
            && forall k: int :: !IsIdentified(t.w, FindUser(t.w, nick).value, Some(k))
  {
  }

  /** A change to the nick that the user has identified to identifies it there. */
  lemma ComingHomeIdentifies(s: State, env: Env, u: User, to: string, ts: int, idnum: int, k: int)
    requires FindReg(s.w, to) == Some(k) && u.id == Ident(Some(s.w.nicks[k].nick), u.id.timestamp, k)
    requires Lower(s.w.nicks[k].nick) == Lower(to) && s.w.nicks[k].timereg < u.id.timestamp
    requires s.w.nicks[k].timereg < ts && ts != 0 && !s.w.nicks[k].vacation && !s.w.nicks[k].forceXfer
    ensures IsIdentified(s.w, Renamed(s.w, env, u, to, ts, idnum), Some(k))
  {
    SameNameIsLower(s.w.nicks[k].nick, to);
  }

  // ---- a level that is handed on

  // The registration and the record of the example.
  function ExampleReg(nick: string): RegNick {
    RegNick(nick, 0, false, false, false, [], false, {})
  }

  // What the example needs of a state: one person online, off its nick's registration but still at the level it had.
  predicate LevelLeft(s: State, n: string) {
    && n in s.w.online && s.w.online[n].nick == n && s.w.online[n].reg == None && s.w.online[n].id == NO_IDENT
    && s.w.online[n].caccess == ACC_IDENTIFIED && s.w.names == map[] && s.w.nicks == map[] && s.next == 1
    && n in s.proved && s.proved[n] == {0}
  }

  lemma DropLeavesLevel(env: Env, n: string, reg: RegNick)
    requires Lower(n) == n && reg == ExampleReg(n)
    ensures LevelLeft(Run(START, env, [SignOn(n, "u", "h", 1, 1), Register(n, reg), Drop(n)]), n)
  {
    var on, made, gone := SignOn(n, "u", "h", 1, 1), Register(n, reg), Drop(n);
    var a := Step(START, env, on);
    var b := Step(a, env, made);
    RunThree(START, env, on, made, gone);
    assert a.w.online[n] == User(n, "u", "h", 1, 1, None, NO_IDENT, ACC_OFFLINE, false, false, false);
    assert b.w.online[n].reg == Some(0) && b.w.nicks == map[0 := reg] && b.w.names == map[n := 0];
    assert IsIdentified(b.w, b.w.online[n], Some(0));
  }

  lemma RunThree(s: State, env: Env, a: Event, b: Event, c: Event)
    ensures Run(s, env, [a, b, c]) == Step(Step(Step(s, env, a), env, b), env, c)
  {
    assert [a, b, c][1..] == [b, c] && [b, c][1..] == [c] && [c][1..] == [];
    var s1 := Step(s, env, a);
    var s2 := Step(s1, env, b);
    assert Run(s, env, [a, b, c]) == Run(s1, env, [b, c]) == Run(s2, env, [c]);
    assert Run(s2, env, [c]) == Run(Step(s2, env, c), env, []);
  }

  lemma LevelHandedOn(s: State, env: Env, n: string, to: string, reg: RegNick)
    requires LevelLeft(s, n) && SameName(to, n) && Lower(to) == n && Lower(n) == n && reg == ExampleReg(n)
    ensures var t := Step(Step(s, env, Enter(reg)), env, ChangeNick(n, to, 2, 2));
            n in t.w.online && IsIdentified(t.w, t.w.online[n], Some(1)) && n in t.proved && 1 !in t.proved[n]
  {
    var a := Step(s, env, Enter(reg));
    assert a.w.names == map[n := 1] && a.w.nicks == map[1 := reg];
    assert FindReg(a.w, reg.nick).Some? && FindReg(a.w, to) == Some(1);
    var v := Renamed(a.w, env, a.w.online[n], to, 2, 2);
    assert v.reg == Some(1) && v.caccess == ACC_IDENTIFIED && v.id == NO_IDENT;
    var t := Step(a, env, ChangeNick(n, to, 2, 2));
    assert t == ChangedNick(a, env, a.w.online[n], to, 2, 2);
    assert t.w.online[n] == v && t.w.nicks == a.w.nicks && t.proved[n] == {0};
  }

  /** bob registers, drops the nick, somebody enters it anew, and bob changes to Bob: identified to a registration whose
      password it never gave. */
  lemma CaseChangeExample(env: Env, n: string, to: string, reg: RegNick)
    requires n == "bob" && to == "Bob" && reg == ExampleReg(n)
    ensures var s := Run(START, env, [SignOn(n, "u", "h", 1, 1), Register(n, reg), Drop(n)]);
            var t := Step(Step(s, env, Enter(reg)), env, ChangeNick(n, to, 2, 2));
            n in t.w.online && IsIdentified(t.w, t.w.online[n], Some(1)) && n in t.proved && 1 !in t.proved[n]
  {
    assert Lower(n) == n && Lower(to) == n && SameName(to, n);
    DropLeavesLevel(env, n, reg);
    LevelHandedOn(Run(START, env, [SignOn(n, "u", "h", 1, 1), Register(n, reg), Drop(n)]), env, n, to, reg);
  }

  // ---- nickserv.c

  class NickServ {
    var w: World
    var next: int
    ghost var proved: map<string, set<int>>
    const env: Env

    ghost function TheState(): State
      reads this
    {
      State(w, next, proved)
    }

    constructor (env: Env)
      ensures TheState() == START && this.env == env
    {
      this.w, this.next, this.proved, this.env := World(map[], map[], map[], 0), 0, map[], env;
    }

    method SetUser(u: User)
      modifies this`w
      ensures TheState() == WithUser(old(TheState()), u)
    {
      w := w.(online := w.online[Lower(u.nick) := u]);
    }

    /** setIdentify. */
    method SetIdentify(u: User, k: int)
      requires k in w.nicks
      modifies this`w
      ensures TheState() == WithUser(old(TheState()), IdentifiedTo(old(w), u, k))
    {
      var timestamp := w.now;
      if u.timestamp > timestamp {
        timestamp := u.timestamp;
      }
      SetUser(u.(id := Ident(Some(w.nicks[k].nick), timestamp, k)));
    }

    /** ns_identify, or with `digest` ns_auth; `correct` is whether the password or the answer is valid. */
    method Identify(nick: string, target: Option<string>, correct: bool, digest: bool)
      requires Valid(TheState())
      modifies this
      ensures Valid(TheState())
      ensures TheState() == Step(old(TheState()), env, Event.Identify(nick, target, correct, digest))
    {
      StepKeepsIff(TheState(), env, Event.Identify(nick, target, correct, digest));
      var from := FindUser(w, nick);
      if from.None? {
        return;
      }
      var u := from.value;
      var tonick := Target(w, u, target);
      if tonick.None? {
        return;
      }
      var k := tonick.value;
      if correct && (digest || !w.nicks[k].forceXfer) {
        ghost var t := Proving(TheState(), Lower(u.nick), k);
        if u.reg == Some(k) {
          w := w.(nicks := w.nicks[k := w.nicks[k].(nick := u.nick)]);
          SetUser(u.(caccess := if digest then ACC_DIGEST_AUTH else ACC_IDENTIFIED));
        } else {
          SetIdentify(u, k);
        }
        proved := t.proved;
      } else if u.reg == Some(k) && !digest {
        SetUser(u.(caccess := ACC_NOT_RECOGNIZED));
      }
    }

    /** ns_logoff. */
    method Logoff(nick: string)
      requires Valid(TheState())
      modifies this`w
      ensures Valid(TheState()) && TheState() == Step(old(TheState()), env, Event.Logoff(nick))
    {
      StepKeepsIff(TheState(), env, Event.Logoff(nick));
      var from := FindUser(w, nick);
      if from.None? {
        return;
      }
      var u := from.value.(id := NO_IDENT);
      if u.caccess > ACC_RECOGNIZED {
        u := u.(caccess := ACC_RECOGNIZED);
      }
      SetUser(u);
    }

    // The new record, as changeNick fills it in.
    method NewRecord(u: User, to: string, ts: int, idnum: int) returns (v: User)
      ensures v == Renamed(w, env, u, to, ts, idnum)
    {
      v := u.(nick := to, timestamp := ts, idnum := idnum, id := NO_IDENT, registered := false, caccess := ACC_OFFLINE);
      if u.id.nick.Some? {
        var target := FindReg(w, u.id.nick.value);
        if target.Some? && w.nicks[target.value].timereg < u.id.timestamp {
          v := v.(id := Ident(u.id.nick, ts, u.id.idnum));
        }
      }
      v := v.(reg := FindReg(w, to));
      if v.reg.Some? {
        var k := v.reg.value;
        if v.id.timestamp != 0 && v.id.nick.Some? && v.id.timestamp > w.nicks[k].timereg && v.id.idnum == k
           && SameName(v.id.nick.value, to) {
          v := v.(id := NO_IDENT, caccess := ACC_IDENTIFIED);
        } else if SameName(to, u.nick) {
          v := v.(caccess := u.caccess);
        } else if CheckAccess(env, v, w.nicks[k]) {
          v := v.(caccess := ACC_RECOGNIZED);
        }
      }
    }

    /** changeNick, of a nick that is in use by nobody else; the state stays valid exactly if nothing is handed on. */
    method ChangeNick(nick: string, to: string, ts: int, idnum: int)
      requires Valid(TheState()) && (Lower(to) in w.online ==> Lower(to) == Lower(nick))
      modifies this
      ensures TheState() == Step(old(TheState()), env, Event.ChangeNick(nick, to, ts, idnum))
      ensures Valid(TheState()) <==> Keeps(old(TheState()), Event.ChangeNick(nick, to, ts, idnum))
    {
      StepKeepsIff(TheState(), env, Event.ChangeNick(nick, to, ts, idnum));
      var changeme := FindUser(w, nick);
      if changeme.None? {
        return;
      }
      assert UserOk(TheState(), Lower(nick));
      var n := Lower(nick);
      var tmp := NewRecord(changeme.value, to, ts, idnum);
      w := w.(online := (w.online - {n})[Lower(to) := tmp]);
      proved := (proved - {n})[Lower(to) := proved[n]];
    }
  }
}
