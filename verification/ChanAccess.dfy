/** nickserv.c and chanserv.c: who a user is taken to be, and the access level that gives on a registered channel.
    Pointers to registrations are their ids, and the tables of online users and registered names are maps from the
    lower-cased name. A mask matches as `Env.matches` says. */
module ChanAccess {
  import opened Text

  const MAOP := 3
  const AOP := 5
  const MSOP := 8
  const SOP := 10
  const FOUNDER := 15

  const ACC_NOT_RECOGNIZED := 1
  const ACC_RECOGNIZED := 2

  datatype Power = Override | Dmod | Servop | Oper

  // A remote identification: the name, when, and under which id.
  datatype Ident = Ident(nick: Option<string>, timestamp: int, idnum: int)

  const NO_IDENT := Ident(None, 0, 0)

  datatype RegNick = RegNick(nick: string, timereg: int, vacation: bool, forceXfer: bool, noAddOp: bool,
                             acl: seq<string>, root: bool, opflags: set<Power>)

  datatype User = User(nick: string, user: string, host: string, timestamp: int, idnum: int, reg: Option<int>,
                       id: Ident, caccess: int, registered: bool, oper: bool, overriding: bool)

  datatype Entry = Entry(nickId: int, uflags: int)

  datatype Chan = Chan(founderId: int, facc: bool, id: Ident, ops: seq<Entry>, akicks: seq<string>,
                       closed: bool, forceXfer: bool, ident: bool)

  // The registrations by id, their names, the users online and the time.
  datatype World = World(nicks: map<int, RegNick>, names: map<string, int>, online: map<string, User>, now: int)

  // match() and genHostMask().
  datatype Env = Env(matches: (string, string) -> bool, genHostMask: string -> string)

  // getNickData, and the id of getRegNickData's record.
  function FindUser(w: World, name: string): Option<User> {
    if Lower(name) in w.online then Some(w.online[Lower(name)]) else None
  }

  function FindReg(w: World, name: string): Option<int> {
    if Lower(name) in w.names && w.names[Lower(name)] in w.nicks then Some(w.names[Lower(name)]) else None
  }

  function Cut(s: string, n: nat): string {
    if |s| <= n then s else s[..n]
  }

  predicate MatchesAny(env: Env, masks: seq<string>, s: string, t: string)
    decreases |masks|
  {
    masks != [] && (env.matches(masks[0], s) || env.matches(masks[0], t) || MatchesAny(env, masks[1..], s, t))
  }

  function FirstMatch(env: Env, masks: seq<string>, s: string, t: string): (k: Option<nat>)
    ensures k.Some? ==> k.value < |masks|
    decreases |masks|
  {
    if masks == [] then None
    else if env.matches(masks[0], s) || env.matches(masks[0], t) then Some(0)
    else match FirstMatch(env, masks[1..], s, t)
         case None => None
         case Some(k) => Some(k + 1)
  }

  /** The first of the masks that match, if any does. */
  lemma {:induction false} FirstMatchIs(env: Env, masks: seq<string>, s: string, t: string)
    ensures var k := FirstMatch(env, masks, s, t);
            && (k.Some? <==> MatchesAny(env, masks, s, t))
            && (k.Some? ==> env.matches(masks[k.value], s) || env.matches(masks[k.value], t))
            && (k.Some? ==> forall i :: 0 <= i < k.value ==> !env.matches(masks[i], s) && !env.matches(masks[i], t))
    decreases |masks|
  {
    if masks != [] {
      FirstMatchIs(env, masks[1..], s, t);
      var k := FirstMatch(env, masks, s, t);
      assert k.Some? ==> forall i :: 0 < i < k.value ==> masks[i] == masks[1..][i - 1];
    }
  }

  predicate CheckAccess(env: Env, u: User, n: RegNick) {
    var theirmask := Cut(u.user, USERLEN) + "@" + Cut(u.host, HOSTLEN);
    MatchesAny(env, n.acl, theirmask, theirmask)
  }

  predicate IsIdentified(w: World, u: User, nick: Option<int>) {
    && nick.Some? && nick.value in w.nicks
    && var n := w.nicks[nick.value];
       && !n.vacation && !n.forceXfer
       && if u.reg != nick && u.id.nick.Some? && u.id.timestamp != 0 then
            u.timestamp <= u.id.timestamp && n.timereg < u.id.timestamp && nick.value == u.id.idnum
            && u.id.nick.value == n.nick
          else u.reg == nick && u.caccess > ACC_RECOGNIZED
  }

  predicate IsRecognized(w: World, env: Env, u: User, nick: Option<int>) {
    && nick.Some? && nick.value in w.nicks
    && var n := w.nicks[nick.value];
       && !n.vacation
       && (CheckAccess(env, u, n)
           || if u.reg != nick then IsIdentified(w, u, nick) else u.caccess > ACC_NOT_RECOGNIZED)
  }

  predicate ValidModeR(w: World, u: User) {
    && u.reg.Some? && u.reg.value in w.nicks && u.registered
    && w.nicks[u.reg.value].timereg < u.timestamp <= w.now
  }

  predicate OpFlagged(w: World, u: User, flags: set<Power>) {
    var rest := flags - {Oper};
    && (Override in flags ==> u.overriding)
    && u.reg.Some? && u.reg.value in w.nicks && (rest != {} ==> IsIdentified(w, u, u.reg))
    && (w.nicks[u.reg.value].root || rest <= w.nicks[u.reg.value].opflags)
    && (Oper in flags ==> u.oper)
  }

  predicate IsFounder(w: World, env: Env, c: Chan, u: User) {
    && (c.forceXfer ==> OpFlagged(w, u, {Override}))
    && (FounderById(w, c, u)
        || (u.reg == Some(c.founderId) && IsRecognized(w, env, u, u.reg) && c.facc))
  }

  // Identified to the channel by password.
  predicate FounderById(w: World, c: Chan, u: User) {
    && c.id.nick.Some? && SameName(u.nick, c.id.nick.value)
    && FindUser(w, c.id.nick.value).Some?
    && var holder := FindUser(w, c.id.nick.value).value;
       holder.timestamp < c.id.timestamp && holder.idnum == c.id.idnum
  }

  // getChanOpData, as a scan of the list.
  function FindOp(ops: seq<Entry>, id: int): (e: Option<Entry>)
    ensures e.Some? ==> e.value in ops && e.value.nickId == id
    decreases |ops|
  {
    if ops == [] then None else if ops[0].nickId == id then Some(ops[0]) else FindOp(ops[1..], id)
  }

  // The level an entry gives to the name it is looked up by; 0 if there is none or its nick is gone.
  function EntryLevel(w: World, c: Chan, name: string): int {
    match FindReg(w, name)
    case None => 0
    case Some(id) => match FindOp(c.ops, id)
                     case None => 0
                     case Some(e) => if e.uflags > 0 then e.uflags else 0
  }

  function Max(a: int, b: int): int {
    if a < b then b else a
  }

  // The highest level among entries whose nick admits the user's address.
  function AddressLevel(w: World, env: Env, ops: seq<Entry>, u: User): (l: int)
    ensures l >= 0
    decreases |ops|
  {
    if ops == [] then 0
    else
      var rest := AddressLevel(w, env, ops[1..], u);
      var e := ops[0];
      if e.nickId in w.nicks && CheckAccess(env, u, w.nicks[e.nickId]) then Max(e.uflags, rest) else rest
  }

  // By the nick identified to remotely.
  function RemoteLevel(w: World, c: Chan, u: User): int {
    if u.id.nick.None? then 0
    else
      var reg2 := FindReg(w, u.id.nick.value);
      if reg2.Some? && IsIdentified(w, u, reg2) then EntryLevel(w, c, w.nicks[reg2.value].nick) else 0
  }

  // By the nick in use, when identification is required.
  function OwnLevelId(w: World, c: Chan, u: User, nick: string): int {
    if IsIdentified(w, u, u.reg) then EntryLevel(w, c, nick)
    else if ValidModeR(w, u) then Min(AOP, EntryLevel(w, c, nick))
    else 0
  }

  // And when it is not.
  function OwnLevel(w: World, env: Env, c: Chan, u: User, nick: string): int {
    var listed := FindReg(w, nick).Some? && FindOp(c.ops, FindReg(w, nick).value).Some?;
    if IsRecognized(w, env, u, u.reg) && listed then EntryLevel(w, c, nick)
    else if ValidModeR(w, u) && listed then Min(AOP, EntryLevel(w, c, nick))
    else AddressLevel(w, env, c.ops, u)
  }

  function OpLevel(w: World, env: Env, c: Chan, u: User, nick: string, id: bool): int {
    Max(RemoteLevel(w, c, u), if id then OwnLevelId(w, c, u, nick) else OwnLevel(w, env, c, u, nick))
  }

  // The first autokick on the user.
  function AkickOn(env: Env, c: Chan, u: User): (k: Option<nat>)
    ensures k.Some? ==> k.value < |c.akicks|
  {
    var limit := HOSTLEN + USERLEN + NICKLEN - 1;
    FirstMatch(env, c.akicks, Cut(u.nick + "!" + u.user + "@" + u.host, limit),
               Cut(u.nick + "!" + u.user + "@" + env.genHostMask(u.host), limit))
  }

  predicate Akicked(env: Env, c: Chan, u: User) {
    AkickOn(env, c, u).Some?
  }

  /** getMiscChanOp. */
  function Level(w: World, env: Env, c: Chan, nick: string, id: bool): int {
    match FindUser(w, nick)
    case None => 0
    case Some(u) =>
      if c.closed && !u.oper then 0
      else if IsFounder(w, env, c, u) then FOUNDER
      else
        var highest := OpLevel(w, env, c, u, nick, id);
        if c.forceXfer && !OpFlagged(w, u, {Override}) then 0
        else if highest == 0 && Akicked(env, c, u) then -1
        else highest
  }

  // ---- properties

  /** Who is identified to a nick is also recognised for it. */
  lemma IdentifiedIsRecognized(w: World, env: Env, u: User, nick: Option<int>)
    requires IsIdentified(w, u, nick)
    ensures IsRecognized(w, env, u, nick)
  {
  }

  /** Requiring identification never gives a higher level. */
  lemma IdentificationNeverGrantsMore(w: World, env: Env, c: Chan, nick: string)
    ensures Level(w, env, c, nick, true) <= Level(w, env, c, nick, false)
  {
    if FindUser(w, nick).Some? {
      var u := FindUser(w, nick).value;
      if IsIdentified(w, u, u.reg) {
        IdentifiedIsRecognized(w, env, u, u.reg);
      }
      assert OwnLevelId(w, c, u, nick) <= OwnLevel(w, env, c, u, nick);
    }
  }

  // u holds the entry e by identification: it is the entry of its own nick or of the one it identified to.
  predicate Proven(w: World, c: Chan, u: User, nick: string, e: Entry) {
    || (IsIdentified(w, u, u.reg) && ListedAs(w, c, nick, e))
    || (u.id.nick.Some? && FindReg(w, u.id.nick.value).Some? && IsIdentified(w, u, FindReg(w, u.id.nick.value))
        && ListedAs(w, c, w.nicks[FindReg(w, u.id.nick.value).value].nick, e))
  }

  predicate ListedAs(w: World, c: Chan, name: string, e: Entry) {
    FindReg(w, name).Some? && FindOp(c.ops, FindReg(w, name).value) == Some(e)
  }

  /** With identification required, a level above AOP belongs to the founder or to an entry whose nick the user has
      identified to; a level up to AOP may also come from a valid +r. */
  lemma IdentifiedLevelIsProven(w: World, env: Env, c: Chan, nick: string)
    ensures var level := Level(w, env, c, nick, true);
            level > 0 ==>
            && FindUser(w, nick).Some?
            && var u := FindUser(w, nick).value;
               || IsFounder(w, env, c, u)
               || (ValidModeR(w, u) && level <= AOP && EntryLevel(w, c, nick) >= level)
               || exists e :: e in c.ops && e.uflags == level && Proven(w, c, u, nick, e)
  {
    var level := Level(w, env, c, nick, true);
    if level > 0 {
      var u := FindUser(w, nick).value;
      if !IsFounder(w, env, c, u) {
        if level == RemoteLevel(w, c, u) {
          var reg2 := FindReg(w, u.id.nick.value);
          var e := FindOp(c.ops, FindReg(w, w.nicks[reg2.value].nick).value).value;
          assert Proven(w, c, u, nick, e);
        } else if IsIdentified(w, u, u.reg) {
          var e := FindOp(c.ops, FindReg(w, nick).value).value;
          assert Proven(w, c, u, nick, e);
        }
      }
    }
  }

  /** Conversely, an entry whose nick the user has identified to always counts, on a channel that is neither closed nor
      being transferred. */
  lemma ProvenEntryCounts(w: World, env: Env, c: Chan, nick: string, e: Entry)
    requires FindUser(w, nick).Some? && Proven(w, c, FindUser(w, nick).value, nick, e)
    requires !c.closed && !c.forceXfer && 0 < e.uflags <= FOUNDER
    ensures Level(w, env, c, nick, true) >= e.uflags
  {
  }

  // Every entry is at most `top`.
  predicate AtMost(ops: seq<Entry>, top: int) {
    forall i :: 0 <= i < |ops| ==> ops[i].uflags <= top
  }

  lemma {:induction false} AddressLevelBound(w: World, env: Env, ops: seq<Entry>, u: User, top: int)
    requires AtMost(ops, top) && top >= 0
    ensures AddressLevel(w, env, ops, u) <= top
    decreases |ops|
  {
    if ops != [] {
      AddressLevelBound(w, env, ops[1..], u, top);
    }
  }

  /** A user who is not the founder gets no more than the highest entry of the list. */
  lemma LevelBound(w: World, env: Env, c: Chan, nick: string, id: bool, top: int)
    requires AtMost(c.ops, top) && top >= 0
    requires FindUser(w, nick).Some? ==> !IsFounder(w, env, c, FindUser(w, nick).value)
    ensures Level(w, env, c, nick, id) <= top
  {
    if FindUser(w, nick).Some? {
      var u := FindUser(w, nick).value;
      AddressLevelBound(w, env, c.ops, u, top);
      EntryLevelBound(w, c, nick, top);
      if u.id.nick.Some? && FindReg(w, u.id.nick.value).Some? {
        EntryLevelBound(w, c, w.nicks[FindReg(w, u.id.nick.value).value].nick, top);
      }
    }
  }

  lemma EntryLevelBound(w: World, c: Chan, name: string, top: int)
    requires AtMost(c.ops, top) && top >= 0
    ensures 0 <= EntryLevel(w, c, name) <= top
  {
  }

  // Someone's address as autokicks see it, and with its host masked.
  function Hostmask(u: User, host: string): string {
    Cut(u.nick + "!" + u.user + "@" + host, HOSTLEN + USERLEN + NICKLEN - 1)
  }

  /** The level is -1 exactly for a user whom an autokick matches and no entry counts for, who is not the founder, on a
      channel that is neither closed to it nor being transferred. */
  lemma AutokickedIff(w: World, env: Env, c: Chan, nick: string, id: bool)
    ensures Level(w, env, c, nick, id) == -1 <==>
            && FindUser(w, nick).Some?
            && var u := FindUser(w, nick).value;
               && (c.closed ==> u.oper) && !IsFounder(w, env, c, u) && (c.forceXfer ==> OpFlagged(w, u, {Override}))
               && (forall i :: 0 <= i < |Items(w, env, c, u, nick, id)| ==> Items(w, env, c, u, nick, id)[i].level <= 0)
               && exists i :: 0 <= i < |c.akicks| &&
                    (env.matches(c.akicks[i], Hostmask(u, u.host))
                     || env.matches(c.akicks[i], Hostmask(u, env.genHostMask(u.host))))
  {
    if FindUser(w, nick).Some? {
      var u := FindUser(w, nick).value;
      ItemsHighest(w, env, c, u, nick, id);
      ProcessIs(Tally(0, None), Items(w, env, c, u, nick, id));
      MatchesAnyIs(env, c.akicks, Hostmask(u, u.host), Hostmask(u, env.genHostMask(u.host)));
      FirstMatchIs(env, c.akicks, Hostmask(u, u.host), Hostmask(u, env.genHostMask(u.host)));
    }
  }

  lemma {:induction false} MatchesAnyIs(env: Env, masks: seq<string>, s: string, t: string)
    ensures MatchesAny(env, masks, s, t) <==>
            exists i :: 0 <= i < |masks| && (env.matches(masks[i], s) || env.matches(masks[i], t))
    decreases |masks|
  {
    if masks != [] {
      MatchesAnyIs(env, masks[1..], s, t);
      if i :| 0 <= i < |masks| - 1 && (env.matches(masks[1..][i], s) || env.matches(masks[1..][i], t)) {
        assert masks[i + 1] == masks[1..][i];
      }
    }
  }

  // ---- the name copied out

  // What the macro process_op_item_level is given, and what it has come to: the highest level so far and the name
  // copied last.
  datatype Item = Item(name: string, level: int)
  datatype Tally = Tally(highest: int, name: Option<string>)

  function Process(f: Tally, items: seq<Item>): Tally
    decreases |items|
  {
    if items == [] then f
    else Process(Tally(Max(f.highest, items[0].level), Some(items[0].name)), items[1..])
  }

  // The item of the entry that a name finds, if it finds one.
  function ItemsOf(w: World, c: Chan, name: string): (items: seq<Item>)
    ensures |items| <= 1 && (items != [] <==> FindReg(w, name).Some? && FindOp(c.ops, FindReg(w, name).value).Some?)
  {
    match FindReg(w, name)
    case None => []
    case Some(id) => match FindOp(c.ops, id)
                     case None => []
                     case Some(e) => [Item(w.nicks[id].nick, e.uflags)]
  }

  // As a valid +r counts it.
  function Capped(items: seq<Item>): (capped: seq<Item>)
    requires |items| <= 1
    ensures |capped| == |items|
  {
    if items == [] then [] else [items[0].(level := Min(AOP, items[0].level))]
  }

  // An entry whose nick admits the user's address.
  function AddressItem(w: World, env: Env, e: Entry, u: User): seq<Item> {
    if e.nickId in w.nicks && CheckAccess(env, u, w.nicks[e.nickId]) then [Item(w.nicks[e.nickId].nick, e.uflags)]
    else []
  }

  function AddressItems(w: World, env: Env, ops: seq<Entry>, u: User): seq<Item>
    decreases |ops|
  {
    if ops == [] then [] else AddressItem(w, env, ops[0], u) + AddressItems(w, env, ops[1..], u)
  }

  function RemoteItems(w: World, c: Chan, u: User): (items: seq<Item>)
    ensures |items| <= 1
  {
    if u.id.nick.None? then []
    else
      var reg2 := FindReg(w, u.id.nick.value);
      if reg2.Some? && IsIdentified(w, u, reg2) then ItemsOf(w, c, w.nicks[reg2.value].nick) else []
  }

  function OwnItems(w: World, env: Env, c: Chan, u: User, nick: string, id: bool): seq<Item> {
    var items := ItemsOf(w, c, nick);
    if id then
      if IsIdentified(w, u, u.reg) then items else if ValidModeR(w, u) then Capped(items) else []
    else
      if IsRecognized(w, env, u, u.reg) && items != [] then items
      else if ValidModeR(w, u) && items != [] then Capped(items)
      else AddressItems(w, env, c.ops, u)
  }

  // The items in the order they are processed. With id the remote one comes last, and only if it is higher.
  function Items(w: World, env: Env, c: Chan, u: User, nick: string, id: bool): seq<Item> {
    var remote, own := RemoteItems(w, c, u), OwnItems(w, env, c, u, nick, id);
    if !id then remote + own
    else if remote != [] && remote[0].level > Process(Tally(0, None), own).highest then own + remote
    else own
  }

  lemma {:induction false} ProcessAppend(f: Tally, a: seq<Item>, b: seq<Item>)
    ensures Process(f, a + b) == Process(Process(f, a), b)
    decreases |a|
  {
    if a == [] {
      assert a + b == b;
    } else {
      assert (a + b)[0] == a[0] && (a + b)[1..] == a[1..] + b;
      ProcessAppend(Tally(Max(f.highest, a[0].level), Some(a[0].name)), a[1..], b);
    }
  }

  lemma {:induction false} AddressItemsHighest(w: World, env: Env, ops: seq<Entry>, u: User, f: Tally)
    requires f.highest >= 0
    ensures Process(f, AddressItems(w, env, ops, u)).highest == Max(f.highest, AddressLevel(w, env, ops, u))
    decreases |ops|
  {
    if ops != [] {
      var first := AddressItem(w, env, ops[0], u);
      ProcessAppend(f, first, AddressItems(w, env, ops[1..], u));
      AddressItemsHighest(w, env, ops[1..], u, Process(f, first));
    }
  }

  lemma ItemsOfHighest(w: World, c: Chan, name: string, f: Tally)
    requires f.highest >= 0
    ensures Process(f, ItemsOf(w, c, name)).highest == Max(f.highest, EntryLevel(w, c, name))
    ensures Process(f, Capped(ItemsOf(w, c, name))).highest == Max(f.highest, Min(AOP, EntryLevel(w, c, name)))
  {
  }

  lemma OwnItemsHighest(w: World, env: Env, c: Chan, u: User, nick: string, id: bool, f: Tally)
    requires f.highest >= 0
    ensures Process(f, OwnItems(w, env, c, u, nick, id)).highest
         == Max(f.highest, if id then OwnLevelId(w, c, u, nick) else OwnLevel(w, env, c, u, nick))
  {
    var items := ItemsOf(w, c, nick);
    ItemsOfHighest(w, c, nick, f);
    AddressItemsHighest(w, env, c.ops, u, f);
    assert items == [] ==> EntryLevel(w, c, nick) == 0;
  }

  lemma RemoteItemsHighest(w: World, c: Chan, u: User, f: Tally)
    requires f.highest >= 0
    ensures Process(f, RemoteItems(w, c, u)).highest == Max(f.highest, RemoteLevel(w, c, u))
  {
  }

  /** The level is the highest of the items. */
  lemma ItemsHighest(w: World, env: Env, c: Chan, u: User, nick: string, id: bool)
    ensures Process(Tally(0, None), Items(w, env, c, u, nick, id)).highest == OpLevel(w, env, c, u, nick, id)
  {
    var f := Tally(0, None);
    var remote, own := RemoteItems(w, c, u), OwnItems(w, env, c, u, nick, id);
    RemoteItemsHighest(w, c, u, f);
    OwnItemsHighest(w, env, c, u, nick, id, f);
    if id {
      RemoteItemsHighest(w, c, u, Process(f, own));
      ProcessAppend(f, own, remote);
    } else {
      OwnItemsHighest(w, env, c, u, nick, id, Process(f, remote));
      ProcessAppend(f, remote, own);
    }
  }

  // What is copied to checkAccessNick.
  function AccessName(w: World, env: Env, c: Chan, nick: string, id: bool): Option<string> {
    match FindUser(w, nick)
    case None => None
    case Some(u) =>
      if c.closed && !u.oper then None
      else if IsFounder(w, env, c, u) then Some("founder(PW)")
      else Process(Tally(0, None), Items(w, env, c, u, nick, id)).name
  }

  // The item processed last, whose name is copied last, is at the level.
  predicate NamesLevel(items: seq<Item>, level: int) {
    items != [] && items[|items| - 1].level == level
  }

  lemma {:induction false} ProcessIs(f: Tally, items: seq<Item>)
    ensures var g := Process(f, items);
            && g.name == (if items == [] then f.name else Some(items[|items| - 1].name))
            && g.highest >= f.highest && (forall i :: 0 <= i < |items| ==> items[i].level <= g.highest)
            && (g.highest == f.highest || exists i :: 0 <= i < |items| && items[i].level == g.highest)
    decreases |items|
  {
    if items != [] {
      ProcessIs(Tally(Max(f.highest, items[0].level), Some(items[0].name)), items[1..]);
      assert forall i :: 1 <= i < |items| ==> items[i] == items[1..][i - 1];
    }
  }

  /** With identification required, the name copied out belongs to an item at the level returned. */
  lemma IdentifiedNameIsHighest(w: World, env: Env, c: Chan, u: User, nick: string)
    requires OpLevel(w, env, c, u, nick, true) > 0
    ensures var items := Items(w, env, c, u, nick, true);
            && NamesLevel(items, OpLevel(w, env, c, u, nick, true))
            && Process(Tally(0, None), items).name == Some(items[|items| - 1].name)
  {
    var f, own, remote := Tally(0, None), OwnItems(w, env, c, u, nick, true), RemoteItems(w, c, u);
    ItemsHighest(w, env, c, u, nick, true);
    ProcessIs(f, Items(w, env, c, u, nick, true));
    ProcessIs(f, own);
    ProcessAppend(f, own, remote);
  }

  lemma LastIsHighest(remote: seq<Item>, own: seq<Item>)
    requires |remote| <= 1 && Process(Tally(0, None), remote + own).highest > 0
    ensures NamesLevel(remote + own, Process(Tally(0, None), remote + own).highest) <==>
            own == [] || (own[|own| - 1].level >= Process(Tally(0, None), remote).highest
                          && forall i :: 0 <= i < |own| ==> own[i].level <= own[|own| - 1].level)
  {
    var f := Tally(0, None);
    ProcessAppend(f, remote, own);
    ProcessIs(f, remote);
    ProcessIs(Process(f, remote), own);
    assert own == [] ==> remote + own == remote;
    assert own != [] ==> (remote + own)[|remote + own| - 1] == own[|own| - 1];
  }

  /** Without, it does exactly if the remote entry is the only one, or the entry processed last is as high as the remote
      one and all others. */
  lemma NameIsHighestIff(w: World, env: Env, c: Chan, u: User, nick: string)
    requires OpLevel(w, env, c, u, nick, false) > 0
    ensures var own := OwnItems(w, env, c, u, nick, false);
            NamesLevel(Items(w, env, c, u, nick, false), OpLevel(w, env, c, u, nick, false)) <==>
            own == [] || (own[|own| - 1].level >= RemoteLevel(w, c, u)
                          && forall i :: 0 <= i < |own| ==> own[i].level <= own[|own| - 1].level)
  {
    ItemsHighest(w, env, c, u, nick, false);
    RemoteItemsHighest(w, c, u, Tally(0, None));
    LastIsHighest(RemoteItems(w, c, u), OwnItems(w, env, c, u, nick, false));
  }

  // Someone online as #1 who is recognised by address and has identified to #2.
  function TwoNicks(now: int): World {
    World(map[1 := RegNick("one", 10, false, false, false, ["*"], false, {}),
              2 := RegNick("two", 10, false, false, false, [], false, {})],
          map["one" := 1, "two" := 2],
          map["one" := User("one", "u", "h", 20, 7, Some(1), Ident(Some("two"), 30, 2), ACC_RECOGNIZED, false, false,
                            false)],
          now)
  }

  /** At level 10 by the one nick and 5 by the other, the level is 10 and the name is that of the entry at 5. */
  lemma TwoNicksExample(env: Env, c: Chan, now: int, one: string)
    requires forall s :: env.matches("*", s)
    requires c == Chan(3, false, NO_IDENT, [Entry(1, AOP), Entry(2, SOP)], [], false, false, false) && one == "one"
    ensures Level(TwoNicks(now), env, c, one, false) == SOP
    ensures AccessName(TwoNicks(now), env, c, one, false) == Some(one)
  {
    var w := TwoNicks(now);
    assert Lower("one") == "one" && Lower("two") == "two";
    var u := FindUser(w, one).value;
    assert FindOp(c.ops, 1) == Some(Entry(1, AOP)) && FindOp(c.ops, 2) == Some(Entry(2, SOP));
    assert RemoteItems(w, c, u) == [Item("two", SOP)];
    assert OwnItems(w, env, c, u, one, false) == [Item("one", AOP)];
    assert Items(w, env, c, u, one, false) == [Item("two", SOP), Item("one", AOP)];
    ProcessIs(Tally(0, None), Items(w, env, c, u, one, false));
  }

  // ---- the same, as nickserv.c and chanserv.c do it

  // What a look at a user's level may leave behind: a disproved +r cleared, a stale identification dropped.
  predicate TidiedWorld(w: World, nick: string, w': World) {
    w' == w || (FindUser(w, nick).Some? && !ValidModeR(w, FindUser(w, nick).value)
                && w' == w.(online := w.online[Lower(nick) := FindUser(w, nick).value.(registered := false)]))
  }

  predicate Tidied(w: World, c: Chan, nick: string, w': World, c': Chan) {
    && TidiedWorld(w, nick, w')
    && (c' == c || (FindUser(w, nick).Some? && !FounderById(w, c, FindUser(w, nick).value) && c' == c.(id := NO_IDENT)))
  }

  lemma TidyUser(w: World, nick: string, w': World)
    requires TidiedWorld(w, nick, w') && FindUser(w, nick).Some?
    ensures FindUser(w', nick).Some?
    ensures var u, u' := FindUser(w, nick).value, FindUser(w', nick).value;
            u' == u || (!ValidModeR(w, u) && u' == u.(registered := false))
    ensures w'.nicks == w.nicks && w'.names == w.names && w'.now == w.now
  {
  }

  // Whoever a channel was identified to keeps what that is checked by.
  lemma SameHolder(w: World, c: Chan, nick: string, w': World)
    requires TidiedWorld(w, nick, w') && FindUser(w, nick).Some?
    ensures FindUser(w', nick).Some?
    ensures FounderById(w', c, FindUser(w', nick).value) == FounderById(w, c, FindUser(w, nick).value)
  {
    TidyUser(w, nick, w');
    if c.id.nick.Some? && Lower(c.id.nick.value) != Lower(nick) {
      assert FindUser(w', c.id.nick.value) == FindUser(w, c.id.nick.value);
    }
  }

  lemma TidyFlags(w: World, u: User, w': World, u': User, flags: set<Power>)
    requires w'.nicks == w.nicks && (u' == u || u' == u.(registered := false))
    ensures OpFlagged(w', u', flags) == OpFlagged(w, u, flags)
  {
    assert IsIdentified(w', u', u.reg) == IsIdentified(w, u, u.reg);
  }

  lemma TidyStanding(w: World, env: Env, c: Chan, nick: string, w': World, c': Chan)
    requires Tidied(w, c, nick, w', c') && FindUser(w, nick).Some?
    ensures FindUser(w', nick).Some?
    ensures var u, u' := FindUser(w, nick).value, FindUser(w', nick).value;
            && (u' == u || (!ValidModeR(w, u) && u' == u.(registered := false)))
            && IsFounder(w', env, c', u') == IsFounder(w, env, c, u)
            && forall flags :: OpFlagged(w', u', flags) == OpFlagged(w, u, flags)
  {
    var u, u' := FindUser(w, nick).value, FindUser(w', nick).value;
    TidyUser(w, nick, w');
    SameHolder(w, c, nick, w');
    forall flags
      ensures OpFlagged(w', u', flags) == OpFlagged(w, u, flags)
    {
      TidyFlags(w, u, w', u', flags);
    }
    assert FounderById(w', c', u') == FounderById(w, c, u);
    assert IsRecognized(w', env, u', u.reg) == IsRecognized(w, env, u, u.reg);
  }

  lemma TidyChecks(w: World, env: Env, u: User, w': World, u': User, nick: Option<int>)
    requires w'.nicks == w.nicks && w'.now == w.now
    requires u' == u || (!ValidModeR(w, u) && u' == u.(registered := false))
    ensures IsIdentified(w', u', nick) == IsIdentified(w, u, nick)
    ensures IsRecognized(w', env, u', nick) == IsRecognized(w, env, u, nick)
    ensures ValidModeR(w', u') == ValidModeR(w, u)
  {
  }

  lemma TidyRemote(w: World, env: Env, c: Chan, w': World, c': Chan, u: User, u': User)
    requires c' == c || c' == c.(id := NO_IDENT)
    requires w'.nicks == w.nicks && w'.names == w.names && w'.now == w.now
    requires u' == u || (!ValidModeR(w, u) && u' == u.(registered := false))
    ensures RemoteLevel(w', c', u') == RemoteLevel(w, c, u)
  {
    if u.id.nick.Some? {
      TidyChecks(w, env, u, w', u', FindReg(w, u.id.nick.value));
    }
  }

  lemma TidyOpLevel(w: World, env: Env, c: Chan, nick: string, id: bool, w': World, c': Chan, u: User, u': User)
    requires c' == c || c' == c.(id := NO_IDENT)
    requires w'.nicks == w.nicks && w'.names == w.names && w'.now == w.now
    requires u' == u || (!ValidModeR(w, u) && u' == u.(registered := false))
    ensures OpLevel(w', env, c', u', nick, id) == OpLevel(w, env, c, u, nick, id)
    ensures Akicked(env, c', u') == Akicked(env, c, u)
  {
    TidyRemote(w, env, c, w', c', u, u');
    AddressLevelSame(w, env, c.ops, u, w', u');
    TidyChecks(w, env, u, w', u', u.reg);
    assert EntryLevel(w', c', nick) == EntryLevel(w, c, nick);
  }

  /** Tidying changes no level and no founder's standing, so repeated looks agree. */
  lemma TidyingChangesNothing(w: World, env: Env, c: Chan, nick: string, id: bool, w': World, c': Chan)
    requires Tidied(w, c, nick, w', c')
    ensures Level(w', env, c', nick, id) == Level(w, env, c, nick, id)
  {
    if FindUser(w, nick).Some? {
      var u, u' := FindUser(w, nick).value, FindUser(w', nick).value;
      assert IsFounder(w', env, c', u') == IsFounder(w, env, c, u)
             && OpFlagged(w', u', {Override}) == OpFlagged(w, u, {Override}) by {
        TidyStanding(w, env, c, nick, w', c');
      }
      TidyUser(w, nick, w');
      TidyOpLevel(w, env, c, nick, id, w', c', u, u');
    }
  }

  lemma {:induction false} AddressLevelSame(w: World, env: Env, ops: seq<Entry>, u: User, w': World, u': User)
    requires w'.nicks == w.nicks && forall n: RegNick :: CheckAccess(env, u', n) == CheckAccess(env, u, n)
    ensures AddressLevel(w', env, ops, u') == AddressLevel(w, env, ops, u)
    decreases |ops|
  {
    if ops != [] {
      AddressLevelSame(w, env, ops[1..], u, w', u');
    }
  }

  class Services {
    var w: World
    const env: Env

    constructor (w: World, env: Env)
      ensures this.w == w && this.env == env
    {
      this.w := w;
      this.env := env;
    }

    /** hasValidModeR clears a +r that the timestamps disprove. */
    method HasValidModeR(u: User) returns (ok: bool, u': User)
      requires u.reg.Some? ==> u.reg.value in w.nicks
      ensures ok == ValidModeR(w, u)
      ensures u' == if u.reg.Some? && u.registered && !ok then u.(registered := false) else u
      ensures ValidModeR(w, u') == ok
    {
      u' := u;
      if u.reg.None? || !u.registered {
        return false, u';
      }
      if u.timestamp <= w.nicks[u.reg.value].timereg || u.timestamp > w.now {
        return false, u.(registered := false);
      }
      return true, u';
    }

    method FindMatch(masks: seq<string>, s: string, t: string) returns (k: Option<nat>)
      ensures k == FirstMatch(env, masks, s, t)
    {
      var i := 0;
      assert masks[0..] == masks;
      while i < |masks|
        invariant i <= |masks|
        invariant FirstMatch(env, masks, s, t) ==
                  match FirstMatch(env, masks[i..], s, t) case None => None case Some(j) => Some(i + j)
      {
        if env.matches(masks[i], s) || env.matches(masks[i], t) {
          return Some(i);
        }
        assert masks[i..][1..] == masks[i + 1..];
        i := i + 1;
      }
      return None;
    }

    /** isFounder clears the channel's identification when it no longer stands for its user. */
    method IsFounderOf(c: Chan, u: User) returns (founder: bool, c': Chan)
      ensures founder == IsFounder(w, env, c, u)
      ensures c' == c || (!FounderById(w, c, u) && c' == c.(id := NO_IDENT))
    {
      c' := c;
      if c.forceXfer && !OpFlagged(w, u, {Override}) {
        return false, c';
      }
      if c.id.nick.Some? {
        var tmp := FindUser(w, c.id.nick.value);
        if tmp.Some? {
          if tmp.value.timestamp < c.id.timestamp && tmp.value.idnum == c.id.idnum
             && SameName(u.nick, c.id.nick.value) {
            return true, c';
          } else if SameName(u.nick, c.id.nick.value) {
            c' := c.(id := NO_IDENT);
          }
        } else {
          c' := c.(id := NO_IDENT);
        }
      }
      founder := u.reg.Some? && c.founderId == u.reg.value && IsRecognized(w, env, u, u.reg) && c.facc;
    }

    // The scan of the op list for addresses.
    method ScanAddresses(ops: seq<Entry>, u: User, f: Tally) returns (g: Tally)
      ensures g == Process(f, AddressItems(w, env, ops, u))
      ensures f.highest >= 0 ==> g.highest == Max(f.highest, AddressLevel(w, env, ops, u))
    {
      g := f;
      if f.highest >= 0 {
        AddressItemsHighest(w, env, ops, u, f);
      }
      var i := 0;
      assert ops[0..] == ops;
      while i < |ops|
        invariant i <= |ops|
        invariant Process(f, AddressItems(w, env, ops, u)) == Process(g, AddressItems(w, env, ops[i..], u))
      {
        assert ops[i..][1..] == ops[i + 1..] && ops[i..][0] == ops[i];
        ProcessAppend(g, AddressItem(w, env, ops[i], u), AddressItems(w, env, ops[i + 1..], u));
        if ops[i].nickId in w.nicks {
          var admits := CheckAccess(env, u, w.nicks[ops[i].nickId]);
          if admits {
            g := Counted(g, Item(w.nicks[ops[i].nickId].nick, ops[i].uflags));
          }
        }
        i := i + 1;
      }
    }

    // process_op_item_level
    static method Counted(f: Tally, item: Item) returns (g: Tally)
      ensures g == Process(f, [item])
    {
      g := Tally(f.highest, Some(item.name));
      if g.highest < item.level {
        g := g.(highest := item.level);
      }
    }

    method GetChanOpData(c: Chan, name: string) returns (e: Option<Entry>)
      ensures e == match FindReg(w, name) case None => None case Some(id) => FindOp(c.ops, id)
    {
      var id := FindReg(w, name);
      if id.None? {
        return None;
      }
      var i := 0;
      assert c.ops[0..] == c.ops;
      while i < |c.ops|
        invariant i <= |c.ops| && FindOp(c.ops, id.value) == FindOp(c.ops[i..], id.value)
      {
        if c.ops[i].nickId == id.value {
          return Some(c.ops[i]);
        }
        assert c.ops[i..][1..] == c.ops[i + 1..];
        i := i + 1;
      }
      return None;
    }

    // With the remote entry; with id only if it is higher.
    method RemoteItem(c: Chan, u: User, id: bool, f: Tally) returns (g: Tally)
      ensures var items := RemoteItems(w, c, u);
              g == if items == [] || (id && items[0].level <= f.highest) then f else Process(f, items)
    {
      g := f;
      if u.id.nick.Some? {
        var reg2 := FindReg(w, u.id.nick.value);
        if reg2.Some? && IsIdentified(w, u, reg2) {
          var e := GetChanOpData(c, w.nicks[reg2.value].nick);
          if e.Some? && (!id || e.value.uflags > f.highest) {
            g := Counted(f, Item(w.nicks[e.value.nickId].nick, e.value.uflags));
          }
        }
      }
    }

    method OwnItem(c: Chan, u: User, nick: string, id: bool, f: Tally) returns (g: Tally, u': User)
      requires u.reg.Some? ==> u.reg.value in w.nicks
      ensures g == Process(f, OwnItems(w, env, c, u, nick, id))
      ensures f.highest >= 0 ==>
                g.highest == Max(f.highest, if id then OwnLevelId(w, c, u, nick) else OwnLevel(w, env, c, u, nick))
      ensures u' == u || (!ValidModeR(w, u) && u' == u.(registered := false))
    {
      g, u' := f, u;
      if f.highest >= 0 {
        OwnItemsHighest(w, env, c, u, nick, id, f);
      }
      var e := GetChanOpData(c, nick);
      var proven := if id then IsIdentified(w, u, u.reg) else IsRecognized(w, env, u, u.reg) && e.Some?;
      if proven {
        if e.Some? {
          g := Counted(f, Item(w.nicks[e.value.nickId].nick, e.value.uflags));
        }
      } else {
        var r;
        r, u' := HasValidModeR(u);
        if r && e.Some? {
          g := Counted(f, Item(w.nicks[e.value.nickId].nick, Min(AOP, e.value.uflags)));
        } else if !id {
          g := ScanAddresses(c.ops, u, f);
        }
      }
    }

    // The items in the order in which they are processed.
    method ProcessItems(c: Chan, u: User, nick: string, id: bool) returns (g: Tally, u': User)
      requires u.reg.Some? ==> u.reg.value in w.nicks
      ensures g == Process(Tally(0, None), Items(w, env, c, u, nick, id))
      ensures g.highest == OpLevel(w, env, c, u, nick, id)
      ensures u' == u || (!ValidModeR(w, u) && u' == u.(registered := false))
    {
      ghost var remote, own := RemoteItems(w, c, u), OwnItems(w, env, c, u, nick, id);
      ItemsHighest(w, env, c, u, nick, id);
      if id {
        g, u' := OwnItem(c, u, nick, id, Tally(0, None));
        ProcessAppend(Tally(0, None), own, remote);
        g := RemoteItem(c, u, id, g);
      } else {
        g := RemoteItem(c, u, id, Tally(0, None));
        ProcessAppend(Tally(0, None), remote, own);
        g, u' := OwnItem(c, u, nick, id, g);
      }
    }

    /** getMiscChanOp: the level, the name copied to checkAccessNick, the autokick behind a level of -1, and what
        isFounder and hasValidModeR clear. */
    method GetMiscChanOp(c: Chan, nick: string, id: bool)
      returns (level: int, name: Option<string>, akick: Option<nat>, c': Chan)
      requires forall n :: n in w.online && w.online[n].reg.Some? ==> w.online[n].reg.value in w.nicks
      modifies this
      ensures level == Level(old(w), env, c, nick, id) && name == AccessName(old(w), env, c, nick, id)
      ensures level == -1 ==> FindUser(old(w), nick).Some? && akick == AkickOn(env, c, FindUser(old(w), nick).value)
      ensures level != -1 ==> akick == None
      ensures Tidied(old(w), c, nick, w, c')
    {
      akick, c' := None, c;
      var tmp := FindUser(w, nick);
      if tmp.None? || (c.closed && !tmp.value.oper) {
        return 0, None, None, c';
      }
      var u := tmp.value;
      var founder;
      founder, c' := IsFounderOf(c, u);
      if founder {
        return FOUNDER, Some("founder(PW)"), None, c';
      }
      var g, u' := ProcessItems(c, u, nick, id);
      level, name := g.highest, g.name;
      if level == 0 {
        var limit := HOSTLEN + USERLEN + NICKLEN - 1;
        akick := FindMatch(c.akicks, Cut(u.nick + "!" + u.user + "@" + u.host, limit),
                           Cut(u.nick + "!" + u.user + "@" + env.genHostMask(u.host), limit));
        if akick.Some? {
          level := -1;
        }
      }
      if c.forceXfer && !OpFlagged(w, u, {Override}) {
        level, akick := 0, None;
      }
      if u' != u {
        w := w.(online := w.online[Lower(nick) := u']);
      }
    }
  }
}
