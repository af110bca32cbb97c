/** clone.c and nickserv.c: the clone counts of the users online. The host table is a map from the lower-cased host; a
    host's users stay a list. A clone rule is what GetCruleMatch answers for a user and host. */
module Clones {
  import opened Text
  import L = ListMacros

  const DEFHOSTCLONETRIGGER := 8
  const DEFUSERCLONETRIGGER := 4

  datatype Flag = IgnoreFlag | KillFlag | AlertFlag | OkFlag

  datatype Rule = Rule(trigger: int, utrigger: int, flags: set<Flag>)

  datatype UserClone = UserClone(user: string, clones: int, trigger: int, uflags: set<Flag>)

  datatype HostClone = HostClone(host: string, users: seq<UserClone>, clones: int, trigger: int, flags: set<Flag>)

  // A pending alert on a host; `host` is the key of its record.
  datatype Alert = Alert(host: string, ua: bool, ha: bool, firstTime: int)

  datatype Table = Table(hosts: map<string, HostClone>, alerts: seq<Alert>)

  // A user record of the online list.
  datatype User = User(nick: string, user: string, host: string)

  // ---- lookups and counts

  // getUserCloneData
  function UserAt(users: seq<UserClone>, user: string): (j: Option<nat>)
    ensures j.Some? ==> j.value < |users| && Lower(users[j.value].user) == Lower(user)
    ensures j.None? ==> forall i :: 0 <= i < |users| ==> Lower(users[i].user) != Lower(user)
  {
    if users == [] then None
    else if Lower(users[0].user) == Lower(user) then Some(0)
    else match UserAt(users[1..], user)
         case None => None
         case Some(j) => Some(j + 1)
  }

  function Sum(users: seq<UserClone>): int {
    if users == [] then 0 else users[0].clones + Sum(users[1..])
  }

  function UserCount(users: seq<UserClone>, user: string): int {
    match UserAt(users, user)
    case None => 0
    case Some(j) => users[j].clones
  }

  // The clone count for a user and a host.
  function Count(hosts: map<string, HostClone>, user: string, host: string): int {
    if Lower(host) in hosts then UserCount(hosts[Lower(host)].users, user) else 0
  }

  // How many records online have this user and host, ignoring case.
  function Online(online: seq<User>, user: string, host: string): nat {
    if online == [] then 0
    else (if Lower(online[0].user) == Lower(user) && Lower(online[0].host) == Lower(host) then 1 else 0)
         + Online(online[1..], user, host)
  }

  // ---- invariants

  ghost predicate Good(h: HostClone) {
    && (forall i, j :: 0 <= i < j < |h.users| ==> Lower(h.users[i].user) != Lower(h.users[j].user))
    && (forall i :: 0 <= i < |h.users| ==> h.users[i].clones >= 1)
    && h.clones == Sum(h.users) && h.clones >= 1
  }

  ghost predicate Listed(t: Table) {
    && (forall k :: k in t.hosts ==> k == Lower(t.hosts[k].host) && Good(t.hosts[k]))
    && (forall i :: 0 <= i < |t.alerts| ==> t.alerts[i].host in t.hosts)
    && (forall i, j :: 0 <= i < j < |t.alerts| ==> t.alerts[i].host != t.alerts[j].host)
  }

  ghost predicate Conserved(t: Table, online: seq<User>) {
    Listed(t) && forall user, host :: Count(t.hosts, user, host) == Online(online, user, host)
  }

  // ---- clone.c as functions

  function NewHost(host: string, rule: Option<Rule>): HostClone {
    HostClone(host, [], 0,
              if rule.Some? && rule.value.trigger > 1 then rule.value.trigger else DEFHOSTCLONETRIGGER,
              if rule.Some? then rule.value.flags else {})
  }

  function NewUser(user: string, rule: Option<Rule>): UserClone {
    UserClone(user, 1, if rule.Some? && rule.value.utrigger > 0 then rule.value.utrigger else DEFUSERCLONETRIGGER, {})
  }

  // addUserClone on a host whose own count has been raised; `j` is where the user then stands.
  function CountUserClone(h: HostClone, user: string, rule: Option<Rule>): (r: (HostClone, nat))
    ensures r.1 < |r.0.users|
  {
    match UserAt(h.users, user)
    case Some(j) => (h.(users := h.users[j := h.users[j].(clones := h.users[j].clones + 1)]), j)
    case None =>
      var inherits := rule.Some? && h.trigger == DEFHOSTCLONETRIGGER && h.flags == {};
      (h.(users := h.users + [NewUser(user, rule)],
          trigger := if inherits && rule.value.trigger > 1 then rule.value.trigger else h.trigger,
          flags := if inherits then rule.value.flags else h.flags), |h.users|)
  }

  // The host record with one more client on it.
  function Raised(hosts: map<string, HostClone>, user: string, host: string, rule: Option<Rule>): (r: (HostClone, nat))
    ensures r.1 < |r.0.users|
  {
    var h := if Lower(host) in hosts then hosts[Lower(host)] else NewHost(host, rule);
    CountUserClone(h.(clones := h.clones + 1), user, rule)
  }

  function AlertAt(alerts: seq<Alert>, host: string): (i: Option<nat>)
    ensures i.Some? ==> i.value < |alerts| && alerts[i.value].host == host
    ensures i.None? ==> forall j :: 0 <= j < |alerts| ==> alerts[j].host != host
  {
    if alerts == [] then None
    else if alerts[0].host == host then Some(0)
    else match AlertAt(alerts[1..], host)
         case None => None
         case Some(i) => Some(i + 1)
  }

  function WithoutAlert(alerts: seq<Alert>, host: string): seq<Alert> {
    match AlertAt(alerts, host)
    case None => alerts
    case Some(i) => alerts[..i] + alerts[i + 1..]
  }

  function RaiseAlert(alerts: seq<Alert>, host: string, ua: bool, ha: bool, now: int): seq<Alert> {
    if !ua && !ha then alerts
    else match AlertAt(alerts, host)
         case None => [Alert(host, ua, ha, now)] + alerts
         case Some(i) => alerts[i := Alert(host, alerts[i].ua || ua, alerts[i].ha || ha, alerts[i].firstTime)]
  }

  function Alerted(flags: set<Flag>, raise: bool): set<Flag> {
    if raise then flags - {OkFlag} + {AlertFlag} else flags
  }

  datatype Added = Added(table: Table, killed: bool)

  // addClone; the rules are those in force at the moment.
  function CountClone(t: Table, user: string, host: string, rule: Option<Rule>, now: int): Added {
    var (h, j) := Raised(t.hosts, user, host, rule);
    Watched(t.(hosts := t.hosts[Lower(host) := h]), Lower(host), j, user, host, now)
  }

  // What addClone does once the client is counted, on the record j of host k.
  function Watched(t: Table, k: string, j: nat, user: string, host: string, now: int): Added
    requires k in t.hosts && j < |t.hosts[k].users|
  {
    var h := t.hosts[k];
    var uc := h.users[j];
    if IgnoreFlag in h.flags then Added(t, false)
    else if (h.clones >= h.trigger || uc.clones >= uc.trigger) && KillFlag in h.flags then
      Added(UncountClone(t, user, host, now), true)
    else
      var ua := uc.clones >= uc.trigger && AlertFlag !in uc.uflags;
      var ha := h.clones >= h.trigger && AlertFlag !in h.flags;
      var h2 := h.(users := h.users[j := uc.(uflags := Alerted(uc.uflags, ua))], flags := Alerted(h.flags, ha));
      Added(Table(t.hosts[k := h2], RaiseAlert(t.alerts, k, ua, ha, now)), false)
  }

  // The host record with one client fewer; a user at zero goes.
  function Lowered(h: HostClone, j: nat): HostClone
    requires j < |h.users|
  {
    var uc := h.users[j].(clones := h.users[j].clones - 1);
    h.(clones := h.clones - 1, users := if uc.clones == 0 then h.users[..j] + h.users[j + 1..] else h.users[j := uc])
  }

  // The alert of a host that has quietened down for half a minute is dropped.
  function Quietened(t: Table, k: string, h: HostClone, uc: UserClone, j: nat, now: int): Table {
    match AlertAt(t.alerts, k)
    case None => t.(hosts := t.hosts[k := h])
    case Some(i) =>
      if h.clones < h.trigger && uc.clones - 1 < uc.trigger && now - t.alerts[i].firstTime > 30 then
        var h2 := if uc.clones > 1 && j < |h.users| then
                    h.(users := h.users[j := h.users[j].(uflags := h.users[j].uflags - {AlertFlag})])
                  else h;
        Table(t.hosts[k := h2], WithoutAlert(t.alerts, k))
      else t.(hosts := t.hosts[k := h])
  }

  // delClone
  function UncountClone(t: Table, user: string, host: string, now: int): Table {
    var k := Lower(host);
    if k !in t.hosts then t
    else
      match UserAt(t.hosts[k].users, user)
      case None => t
      case Some(j) =>
        var h := Lowered(t.hosts[k], j);
        if h.clones == 0 then Table(t.hosts - {k}, WithoutAlert(t.alerts, k))
        else Quietened(t, k, h, t.hosts[k].users[j], j, now)
  }

  // ---- what they do to the counts

  ghost predicate DistinctUsers(users: seq<UserClone>) {
    forall i, j :: 0 <= i < j < |users| ==> Lower(users[i].user) != Lower(users[j].user)
  }

  lemma UserAtIs(users: seq<UserClone>, j: nat, user: string)
    requires DistinctUsers(users) && j < |users| && Lower(users[j].user) == Lower(user)
    ensures UserAt(users, user) == Some(j)
  {
  }

  lemma {:induction false} SumSnoc(users: seq<UserClone>, x: UserClone)
    ensures Sum(users + [x]) == Sum(users) + x.clones
  {
    if users == [] {
      assert [x][1..] == [];
    } else {
      assert (users + [x])[0] == users[0] && (users + [x])[1..] == users[1..] + [x];
      SumSnoc(users[1..], x);
    }
  }

  lemma {:induction false} SumUpdate(users: seq<UserClone>, j: nat, x: UserClone)
    requires j < |users|
    ensures Sum(users[j := x]) == Sum(users) + x.clones - users[j].clones
  {
    if j > 0 {
      assert users[j := x][1..] == users[1..][j - 1 := x];
      SumUpdate(users[1..], j - 1, x);
    } else {
      assert users[0 := x][1..] == users[1..];
    }
  }

  lemma {:induction false} SumRemove(users: seq<UserClone>, j: nat)
    requires j < |users|
    ensures Sum(users[..j] + users[j + 1..]) == Sum(users) - users[j].clones
  {
    if j > 0 {
      assert (users[..j] + users[j + 1..])[1..] == users[1..][..j - 1] + users[1..][j..];
      SumRemove(users[1..], j - 1);
    } else {
      assert users[..0] + users[1..] == users[1..];
    }
  }

  lemma {:induction false} SumAtLeast(users: seq<UserClone>, j: nat)
    requires j < |users| && forall i :: 0 <= i < |users| ==> users[i].clones >= 1
    ensures Sum(users) >= users[j].clones + |users| - 1
    decreases |users|
  {
    if |users| > 1 {
      if j > 0 {
        SumAtLeast(users[1..], j - 1);
      } else {
        SumAtLeast(users[1..], 0);
      }
    }
  }

  // The same list with one element replaced by one for the same user.
  lemma UpdatedCount(users: seq<UserClone>, j: nat, x: UserClone, u: string)
    requires DistinctUsers(users) && j < |users| && Lower(x.user) == Lower(users[j].user)
    ensures DistinctUsers(users[j := x])
    ensures UserCount(users[j := x], u) == if Lower(u) == Lower(x.user) then x.clones else UserCount(users, u)
  {
    var users' := users[j := x];
    if Lower(u) == Lower(x.user) {
      UserAtIs(users', j, u);
    } else if UserAt(users, u).Some? {
      UserAtIs(users', UserAt(users, u).value, u);
    }
  }

  lemma AppendedCount(users: seq<UserClone>, x: UserClone, u: string)
    requires DistinctUsers(users) && UserAt(users, x.user).None?
    ensures DistinctUsers(users + [x])
    ensures UserCount(users + [x], u) == if Lower(u) == Lower(x.user) then x.clones else UserCount(users, u)
  {
    var users' := users + [x];
    if Lower(u) == Lower(x.user) {
      UserAtIs(users', |users|, u);
    } else if UserAt(users, u).Some? {
      UserAtIs(users', UserAt(users, u).value, u);
    }
  }

  lemma RemovedCount(users: seq<UserClone>, j: nat, u: string)
    requires DistinctUsers(users) && j < |users|
    ensures DistinctUsers(users[..j] + users[j + 1..])
    ensures UserCount(users[..j] + users[j + 1..], u) ==
            if Lower(u) == Lower(users[j].user) then 0 else UserCount(users, u)
  {
    var users' := users[..j] + users[j + 1..];
    assert forall i :: 0 <= i < |users'| ==> users'[i] == users[if i < j then i else i + 1];
    if Lower(u) != Lower(users[j].user) && UserAt(users, u).Some? {
      var i := UserAt(users, u).value;
      UserAtIs(users', if i < j then i else i - 1, u);
    }
  }

  function Same(a: string, b: string): int {
    if Lower(a) == Lower(b) then 1 else 0
  }

  // One more client of `user` on the record, which may be a new one.
  lemma AddUserCloneCounts(h: HostClone, user: string, rule: Option<Rule>, u: string)
    requires Good(h) || (h.users == [] && h.clones == 0)
    ensures var (h', j) := CountUserClone(h.(clones := h.clones + 1), user, rule);
            && Good(h') && h'.host == h.host && Lower(h'.users[j].user) == Lower(user)
            && UserCount(h'.users, u) == UserCount(h.users, u) + Same(u, user)
            && h'.clones == h.clones + 1
  {
    var (h', j) := CountUserClone(h.(clones := h.clones + 1), user, rule);
    match UserAt(h.users, user)
    case Some(i) => RaisedUser(h, i, u);
    case None => NewUserCounts(h, user, rule, u);
  }

  lemma RaisedUser(h: HostClone, i: nat, u: string)
    requires DistinctUsers(h.users) && i < |h.users|
    ensures var x := h.users[i].(clones := h.users[i].clones + 1);
            var users := h.users[i := x];
            && Sum(users) == Sum(h.users) + 1 && DistinctUsers(users)
            && UserCount(users, u) == UserCount(h.users, u) + Same(u, x.user)
  {
    var x := h.users[i].(clones := h.users[i].clones + 1);
    UpdatedCount(h.users, i, x, u);
    SumUpdate(h.users, i, x);
    if Lower(u) == Lower(x.user) {
      UserAtIs(h.users, i, u);
    }
  }

  lemma NewUserCounts(h: HostClone, user: string, rule: Option<Rule>, u: string)
    requires DistinctUsers(h.users) && UserAt(h.users, user).None?
    ensures var users := h.users + [NewUser(user, rule)];
            && Sum(users) == Sum(h.users) + 1 && DistinctUsers(users)
            && UserCount(users, u) == UserCount(h.users, u) + Same(u, user)
  {
    AppendedCount(h.users, NewUser(user, rule), u);
    SumSnoc(h.users, NewUser(user, rule));
    if Lower(u) == Lower(user) {
      assert UserAt(h.users, u).None?;
    }
  }

  lemma LoweredGone(h: HostClone, j: nat, u: string)
    requires Good(h) && j < |h.users| && h.users[j].clones == 1
    ensures var users := h.users[..j] + h.users[j + 1..];
            && Sum(users) == h.clones - 1 && DistinctUsers(users)
            && (forall i :: 0 <= i < |users| ==> users[i].clones >= 1) && (users == [] <==> h.clones == 1)
            && UserCount(users, u) == if Lower(u) == Lower(h.users[j].user) then 0 else UserCount(h.users, u)
  {
    var users := h.users[..j] + h.users[j + 1..];
    RemovedCount(h.users, j, u);
    SumRemove(h.users, j);
    assert forall i :: 0 <= i < |users| ==> users[i] == h.users[if i < j then i else i + 1];
    if users != [] {
      SumAtLeast(users, 0);
    }
  }

  lemma LoweredStays(h: HostClone, j: nat, u: string)
    requires Good(h) && j < |h.users| && h.users[j].clones > 1
    ensures var x := h.users[j].(clones := h.users[j].clones - 1);
            var users := h.users[j := x];
            && Sum(users) == h.clones - 1 && DistinctUsers(users) && h.clones > 1
            && (forall i :: 0 <= i < |users| ==> users[i].clones >= 1)
            && UserCount(users, u) == if Lower(u) == Lower(x.user) then x.clones else UserCount(h.users, u)
  {
    var x := h.users[j].(clones := h.users[j].clones - 1);
    UpdatedCount(h.users, j, x, u);
    SumUpdate(h.users, j, x);
    SumAtLeast(h.users, j);
  }

  lemma LoweredCounts(h: HostClone, user: string, u: string)
    requires Good(h) && UserAt(h.users, user).Some?
    ensures var h' := Lowered(h, UserAt(h.users, user).value);
            && h'.host == h.host && h'.clones == h.clones - 1
            && UserCount(h'.users, u) == UserCount(h.users, u) - Same(u, user)
            && (if h'.clones == 0 then h'.users == [] else Good(h'))
  {
    LoweredAt(h, UserAt(h.users, user).value, u);
  }

  lemma LoweredAt(h: HostClone, j: nat, u: string)
    requires Good(h) && j < |h.users|
    ensures var h' := Lowered(h, j);
            && UserCount(h'.users, u) == UserCount(h.users, u) - Same(u, h.users[j].user)
            && (if h'.clones == 0 then h'.users == [] else Good(h'))
  {
    if Lower(u) == Lower(h.users[j].user) {
      UserAtIs(h.users, j, u);
    }
    var h' := Lowered(h, j);
    if h.users[j].clones == 1 {
      LoweredGone(h, j, u);
      assert h'.users == h.users[..j] + h.users[j + 1..];
      assert h'.clones != 0 ==> Good(h');
    } else {
      LoweredStays(h, j, u);
      assert Good(h');
    }
  }

  // Changing flags and triggers changes no count.
  lemma FlagsKeepCounts(h: HostClone, j: nat, uflags: set<Flag>, flags: set<Flag>, u: string)
    requires Good(h) && j < |h.users|
    ensures var h' := h.(users := h.users[j := h.users[j].(uflags := uflags)], flags := flags);
            Good(h') && UserCount(h'.users, u) == UserCount(h.users, u)
  {
    var x := h.users[j].(uflags := uflags);
    UpdatedCount(h.users, j, x, u);
    SumUpdate(h.users, j, x);
    if Lower(u) == Lower(x.user) {
      UserAtIs(h.users, j, u);
    }
  }

  // ---- alerts

  lemma WithoutAlertNames(alerts: seq<Alert>, host: string)
    requires forall i, j :: 0 <= i < j < |alerts| ==> alerts[i].host != alerts[j].host
    ensures var a := WithoutAlert(alerts, host);
            && (forall i, j :: 0 <= i < j < |a| ==> a[i].host != a[j].host)
            && (forall i :: 0 <= i < |a| ==> a[i].host != host && a[i] in alerts)
  {
    var a := WithoutAlert(alerts, host);
    if AlertAt(alerts, host).Some? {
      var k := AlertAt(alerts, host).value;
      assert forall i :: 0 <= i < |a| ==> a[i] == alerts[if i < k then i else i + 1];
    }
  }

  lemma RaiseAlertNames(alerts: seq<Alert>, host: string, ua: bool, ha: bool, now: int)
    requires forall i, j :: 0 <= i < j < |alerts| ==> alerts[i].host != alerts[j].host
    ensures var a := RaiseAlert(alerts, host, ua, ha, now);
            && (forall i, j :: 0 <= i < j < |a| ==> a[i].host != a[j].host)
            && (forall i :: 0 <= i < |a| ==> a[i].host == host || a[i] in alerts)
  {
  }

  // ---- addClone and delClone

  /** delClone takes one from the count of the user and host, if it has any, and from no other. */
  lemma DelCloneCounts(t: Table, user: string, host: string, now: int)
    requires Listed(t)
    ensures var t' := UncountClone(t, user, host, now);
            && Listed(t')
            && forall u, h :: Count(t'.hosts, u, h) == Count(t.hosts, u, h)
                 - (if Count(t.hosts, user, host) > 0 then Same(u, user) * Same(h, host) else 0)
  {
    var t', k := UncountClone(t, user, host, now), Lower(host);
    if k in t.hosts && UserAt(t.hosts[k].users, user).Some? {
      var j := UserAt(t.hosts[k].users, user).value;
      DelCloneListed(t, user, host, now);
      forall u, h
        ensures Count(t'.hosts, u, h) == Count(t.hosts, u, h) - Same(u, user) * Same(h, host)
      {
        DelCloneCount(t, user, host, now, u, h);
      }
    }
  }

  lemma DelCloneHost(t: Table, user: string, host: string, now: int, u: string)
    requires Listed(t) && Lower(host) in t.hosts && UserAt(t.hosts[Lower(host)].users, user).Some?
    ensures var t', k := UncountClone(t, user, host, now), Lower(host);
            if t.hosts[k].clones == 1 then t' == Table(t.hosts - {k}, WithoutAlert(t.alerts, k))
                                           && UserCount(t.hosts[k].users, u) == Same(u, user)
            else && k in t'.hosts && t'.hosts == t.hosts[k := t'.hosts[k]] && Good(t'.hosts[k])
                 && t'.hosts[k].host == t.hosts[k].host
                 && UserCount(t'.hosts[k].users, u) == UserCount(t.hosts[k].users, u) - Same(u, user)
                 && (t'.alerts == t.alerts || t'.alerts == WithoutAlert(t.alerts, k))
  {
    var k := Lower(host);
    var j := UserAt(t.hosts[k].users, user).value;
    var h := Lowered(t.hosts[k], j);
    LoweredCounts(t.hosts[k], user, u);
    if h.clones != 0 && j < |h.users| {
      FlagsKeepCounts(h, j, h.users[j].uflags - {AlertFlag}, h.flags, u);
    }
  }

  lemma DelCloneListed(t: Table, user: string, host: string, now: int)
    requires Listed(t) && Lower(host) in t.hosts && UserAt(t.hosts[Lower(host)].users, user).Some?
    ensures Listed(UncountClone(t, user, host, now))
  {
    DelCloneHost(t, user, host, now, user);
    WithoutAlertNames(t.alerts, Lower(host));
  }

  lemma DelCloneCount(t: Table, user: string, host: string, now: int, u: string, h: string)
    requires Listed(t) && Lower(host) in t.hosts && UserAt(t.hosts[Lower(host)].users, user).Some?
    ensures Count(UncountClone(t, user, host, now).hosts, u, h) == Count(t.hosts, u, h) - Same(u, user) * Same(h, host)
  {
    DelCloneHost(t, user, host, now, u);
  }

  lemma RaisedCounts(t: Table, user: string, host: string, rule: Option<Rule>, u: string)
    requires Listed(t)
    ensures var (h, j) := Raised(t.hosts, user, host, rule);
            && Good(h) && Lower(h.host) == Lower(host) && Lower(h.users[j].user) == Lower(user)
            && UserCount(h.users, u) == Count(t.hosts, u, host) + Same(u, user)
            && (Lower(host) in t.hosts ==> h.host == t.hosts[Lower(host)].host)
  {
    var h := if Lower(host) in t.hosts then t.hosts[Lower(host)] else NewHost(host, rule);
    AddUserCloneCounts(h, user, rule, u);
  }

  /** addClone adds one to the count of the user and host, and to no other; where it returns 1 all counts are as
      before. */
  lemma AddCloneCounts(t: Table, user: string, host: string, rule: Option<Rule>, now: int)
    requires Listed(t)
    ensures var a := CountClone(t, user, host, rule, now);
            && Listed(a.table)
            && forall u, h :: Count(a.table.hosts, u, h) == Count(t.hosts, u, h)
                 + (if a.killed then 0 else Same(u, user) * Same(h, host))
  {
    var a := CountClone(t, user, host, rule, now);
    var (hc, j) := Raised(t.hosts, user, host, rule);
    var k := Lower(host);
    var t1 := t.(hosts := t.hosts[k := hc]);
    RaisedCounts(t, user, host, rule, user);
    assert Listed(t1);
    forall u, h
      ensures Count(t1.hosts, u, h) == Count(t.hosts, u, h) + Same(u, user) * Same(h, host)
    {
      RaisedCounts(t, user, host, rule, u);
    }
    WatchedCounts(t1, k, j, user, host, now);
  }

  // Once counted, the client stays counted unless it is killed.
  lemma WatchedCounts(t: Table, k: string, j: nat, user: string, host: string, now: int)
    requires Listed(t) && k == Lower(host) && k in t.hosts && j < |t.hosts[k].users|
    requires Lower(t.hosts[k].users[j].user) == Lower(user)
    ensures var a := Watched(t, k, j, user, host, now);
            && Listed(a.table)
            && forall u, h :: Count(a.table.hosts, u, h) == Count(t.hosts, u, h)
                 - (if a.killed then Same(u, user) * Same(h, host) else 0)
  {
    var a, hc := Watched(t, k, j, user, host, now), t.hosts[k];
    if a.killed {
      UserAtIs(hc.users, j, user);
      DelCloneCounts(t, user, host, now);
    } else if IgnoreFlag !in hc.flags {
      var uc := hc.users[j];
      var ua := uc.clones >= uc.trigger && AlertFlag !in uc.uflags;
      var ha := hc.clones >= hc.trigger && AlertFlag !in hc.flags;
      AlertStage(t, k, j, now, ua, ha, Alerted(uc.uflags, ua), Alerted(hc.flags, ha));
    }
  }

  // The alerts raised at the end of addClone.
  lemma AlertStage(t: Table, k: string, j: nat, now: int, ua: bool, ha: bool, uflags: set<Flag>, flags: set<Flag>)
    requires Listed(t) && k in t.hosts && j < |t.hosts[k].users|
    ensures var hc := t.hosts[k];
            var h2 := hc.(users := hc.users[j := hc.users[j].(uflags := uflags)], flags := flags);
            var t2 := Table(t.hosts[k := h2], RaiseAlert(t.alerts, k, ua, ha, now));
            && Listed(t2) && forall u, h :: Count(t2.hosts, u, h) == Count(t.hosts, u, h)
  {
    var hc := t.hosts[k];
    var h2 := hc.(users := hc.users[j := hc.users[j].(uflags := uflags)], flags := flags);
    var t2 := Table(t.hosts[k := h2], RaiseAlert(t.alerts, k, ua, ha, now));
    FlagsKeepCounts(hc, j, uflags, flags, "");
    RaiseAlertNames(t.alerts, k, ua, ha, now);
    forall u, h
      ensures Count(t2.hosts, u, h) == Count(t.hosts, u, h)
    {
      FlagsKeepCounts(hc, j, uflags, flags, u);
    }
  }

  // ---- the users online, over whole runs

  function FindNick(online: seq<User>, nick: string): (i: Option<nat>)
    ensures i.Some? ==> i.value < |online|
  {
    if online == [] then None
    else if Lower(online[0].nick) == Lower(nick) then Some(0)
    else match FindNick(online[1..], nick)
         case None => None
         case Some(i) => Some(i + 1)
  }

  datatype State = State(table: Table, online: seq<User>)

  // A sign-on (refused for a ghost, an autokill or a reserved nick, or not), a quit or kill, and a nick change (after
  // which the user may be removed). addNick inserts at the head.
  datatype Event =
    | NewUser(nick: string, user: string, host: string, refused: bool, rule: Option<Rule>, now: int)
    | RemUser(nick: string, now: int)
    | ChangeNick(from: string, to: string, removed: bool, now: int)

  function Removed(s: State, nick: string, now: int): State {
    match FindNick(s.online, nick)
    case None => s
    case Some(i) => State(UncountClone(s.table, s.online[i].user, s.online[i].host, now), L.RemoveAt(s.online, i))
  }

  function Step(s: State, e: Event): State {
    match e
    case NewUser(nick, user, host, refused, rule, now) =>
      if refused then s
      else
        var a := CountClone(s.table, user, host, rule, now);
        State(a.table, if a.killed then s.online else [User(nick, user, host)] + s.online)
    case RemUser(nick, now) => Removed(s, nick, now)
    case ChangeNick(from, to, removed, now) =>
      match FindNick(s.online, from)
      case None => s
      case Some(i) =>
        var s' := s.(online := [s.online[i].(nick := to)] + L.RemoveAt(s.online, i));
        if removed then Removed(s', to, now) else s'
  }

  function Run(s: State, events: seq<Event>): State
    decreases |events|
  {
    if events == [] then s else Run(Step(s, events[0]), events[1..])
  }

  lemma {:induction false} OnlineRemove(online: seq<User>, i: nat, user: string, host: string)
    requires i < |online|
    ensures Online(L.RemoveAt(online, i), user, host)
         == Online(online, user, host) - Same(user, online[i].user) * Same(host, online[i].host)
    ensures Online(online, user, host) >= Same(user, online[i].user) * Same(host, online[i].host)
  {
    if i > 0 {
      assert L.RemoveAt(online, i)[1..] == L.RemoveAt(online[1..], i - 1);
      OnlineRemove(online[1..], i - 1, user, host);
    } else {
      assert L.RemoveAt(online, 0) == online[1..];
    }
  }

  lemma OnlineAdd(u: User, online: seq<User>, user: string, host: string)
    ensures Online([u] + online, user, host) == Online(online, user, host) + Same(user, u.user) * Same(host, u.host)
  {
    assert ([u] + online)[1..] == online;
  }

  lemma RemovedConserves(s: State, nick: string, now: int)
    requires Conserved(s.table, s.online)
    ensures Conserved(Removed(s, nick, now).table, Removed(s, nick, now).online)
  {
    var i := FindNick(s.online, nick);
    if i.Some? {
      var r, s' := s.online[i.value], Removed(s, nick, now);
      DelCloneCounts(s.table, r.user, r.host, now);
      OnlineRemove(s.online, i.value, r.user, r.host);
      forall user, host
        ensures Count(s'.table.hosts, user, host) == Online(s'.online, user, host)
      {
        OnlineRemove(s.online, i.value, user, host);
      }
    }
  }

  lemma RenamedConserves(s: State, i: nat, to: string)
    requires Conserved(s.table, s.online) && i < |s.online|
    ensures Conserved(s.table, [s.online[i].(nick := to)] + L.RemoveAt(s.online, i))
  {
    var r := s.online[i].(nick := to);
    forall user, host
      ensures Online([r] + L.RemoveAt(s.online, i), user, host) == Online(s.online, user, host)
    {
      OnlineRemove(s.online, i, user, host);
      OnlineAdd(r, L.RemoveAt(s.online, i), user, host);
    }
  }

  lemma StepConserves(s: State, e: Event)
    requires Conserved(s.table, s.online)
    ensures Conserved(Step(s, e).table, Step(s, e).online)
  {
    match e
    case NewUser(nick, user, host, refused, rule, now) =>
      if !refused {
        AddCloneCounts(s.table, user, host, rule, now);
        var s' := Step(s, e);
        forall u, h
          ensures Count(s'.table.hosts, u, h) == Online(s'.online, u, h)
        {
          OnlineAdd(User(nick, user, host), s.online, u, h);
        }
      }
    case RemUser(nick, now) => RemovedConserves(s, nick, now);
    case ChangeNick(from, to, removed, now) =>
      var i := FindNick(s.online, from);
      if i.Some? {
        RenamedConserves(s, i.value, to);
        var s' := s.(online := [s.online[i.value].(nick := to)] + L.RemoveAt(s.online, i.value));
        if removed {
          RemovedConserves(s', to, now);
        }
      }
  }

  /** In every run the clone count of each user and host is the number of records online with that user and host, each
      host's count is the sum of its users', nothing listed is at zero, and every pending alert names one listed host,
      no two the same. */
  lemma {:induction false} CountsConserved(s: State, events: seq<Event>)
    requires Conserved(s.table, s.online)
    ensures Conserved(Run(s, events).table, Run(s, events).online)
    decreases |events|
  {
    if events != [] {
      StepConserves(s, events[0]);
      CountsConserved(Step(s, events[0]), events[1..]);
    }
  }

  const START := State(Table(map[], []), [])

  /** So it is from a network without users on. */
  lemma ConservedFromStart(events: seq<Event>)
    ensures Conserved(Run(START, events).table, Run(START, events).online)
  {
    CountsConserved(START, events);
  }

  // How many records online have this host.
  function OnlineAt(online: seq<User>, host: string): nat {
    if online == [] then 0 else Same(online[0].host, host) + OnlineAt(online[1..], host)
  }

  lemma FirstCounts(users: seq<UserClone>)
    requires users != [] && DistinctUsers(users) && users[0].clones >= 1
    ensures UserCount(users, users[0].user) >= 1
  {
    UserAtIs(users, 0, users[0].user);
  }

  lemma {:induction false} SumIsOnline(users: seq<UserClone>, online: seq<User>, host: string)
    requires DistinctUsers(users) && forall i :: 0 <= i < |users| ==> users[i].clones >= 1
    requires forall u :: UserCount(users, u) == Online(online, u, host)
    ensures Sum(users) == OnlineAt(online, host)
    decreases |online|
  {
    if online == [] {
      if users != [] {
        FirstCounts(users);
      }
    } else if Lower(online[0].host) != Lower(host) {
      SumIsOnline(users, online[1..], host);
    } else {
      var r := online[0].user;
      assert UserCount(users, r) == Online(online, r, host);
      var j := UserAt(users, r).value;
      var h := HostClone("", users, Sum(users), 0, {});
      SumAtLeast(users, j);
      var users' := Lowered(h, j).users;
      forall u
        ensures UserCount(users', u) == Online(online[1..], u, host)
      {
        LoweredCounts(h, r, u);
        assert UserCount(users, u) == Online(online, u, host);
      }
      LoweredCounts(h, r, r);
      if users' != [] {
        assert Good(Lowered(h, j));
      }
      SumIsOnline(users', online[1..], host);
    }
  }

  /** In a conserved state a host is listed exactly if someone online is on it, with their number as its count. */
  lemma HostCountsAreOnline(t: Table, online: seq<User>, host: string)
    requires Conserved(t, online)
    ensures Lower(host) in t.hosts <==> OnlineAt(online, host) > 0
    ensures Lower(host) in t.hosts ==> t.hosts[Lower(host)].clones == OnlineAt(online, host)
  {
    var users := if Lower(host) in t.hosts then t.hosts[Lower(host)].users else [];
    forall u
      ensures UserCount(users, u) == Online(online, u, host)
    {
      assert Count(t.hosts, u, host) == Online(online, u, host);
    }
    SumIsOnline(users, online, host);
  }

  // ---- clone.c and nickserv.c

  class Services {
    var hosts: map<string, HostClone>
    var alerts: seq<Alert>
    var online: seq<User>

    ghost function TheTable(): Table
      reads this
    {
      Table(hosts, alerts)
    }

    ghost function TheState(): State
      reads this
    {
      State(TheTable(), online)
    }

    ghost predicate Valid()
      reads this
    {
      Conserved(TheTable(), online)
    }

    constructor ()
      ensures Valid() && online == []
    {
      hosts, alerts, online := map[], [], [];
    }

    method FindUser(users: seq<UserClone>, user: string) returns (j: Option<nat>)
      ensures j == UserAt(users, user)
    {
      var i := 0;
      assert users[0..] == users;
      while i < |users|
        invariant i <= |users|
        invariant UserAt(users, user) == match UserAt(users[i..], user) case None => None case Some(j) => Some(i + j)
      {
        if Lower(users[i].user) == Lower(user) {
          return Some(i);
        }
        assert users[i..][1..] == users[i + 1..];
        i := i + 1;
      }
      return None;
    }

    method FindAlert(host: string) returns (k: Option<nat>)
      ensures k == AlertAt(alerts, host)
    {
      var i := 0;
      assert alerts[0..] == alerts;
      while i < |alerts|
        invariant i <= |alerts|
        invariant AlertAt(alerts, host)
               == match AlertAt(alerts[i..], host) case None => None case Some(j) => Some(i + j)
      {
        if alerts[i].host == host {
          return Some(i);
        }
        assert alerts[i..][1..] == alerts[i + 1..];
        i := i + 1;
      }
      return None;
    }

    /** addUserClone, on the record of a listed host; gives the position of the user's record. */
    method AddUserClone(k: string, user: string, rule: Option<Rule>) returns (j: nat)
      requires k in hosts
      modifies this`hosts
      ensures var (h, i) := CountUserClone(old(hosts[k]), user, rule);
              hosts == old(hosts)[k := h] && j == i
    {
      var hc := hosts[k];
      var found := FindUser(hc.users, user);
      if found.None? {
        var uc := UserClone(user, 1, DEFUSERCLONETRIGGER, {});
        if rule.Some? {
          if rule.value.utrigger > 0 {
            uc := uc.(trigger := rule.value.utrigger);
          }
          if hc.trigger == DEFHOSTCLONETRIGGER && hc.flags == {} {
            if rule.value.trigger > 1 {
              hc := hc.(trigger := rule.value.trigger);
            }
            hc := hc.(flags := rule.value.flags);
          }
        }
        j := |hc.users|;
        hc := hc.(users := hc.users + [uc]);
      } else {
        j := found.value;
        hc := hc.(users := hc.users[j := hc.users[j].(clones := hc.users[j].clones + 1)]);
      }
      hosts := hosts[k := hc];
    }

    /** addClone. */
    method AddClone(user: string, host: string, rule: Option<Rule>, now: int) returns (killed: bool)
      modifies this`hosts, this`alerts
      ensures Added(TheTable(), killed) == CountClone(old(TheTable()), user, host, rule, now)
    {
      ghost var was := hosts;
      var k := Lower(host);
      if k !in hosts {
        var hc := HostClone(host, [], 1, DEFHOSTCLONETRIGGER, {});
        if rule.Some? {
          if rule.value.trigger > 1 {
            hc := hc.(trigger := rule.value.trigger);
          }
          hc := hc.(flags := rule.value.flags);
        }
        hosts := hosts[k := hc];
      } else {
        hosts := hosts[k := hosts[k].(clones := hosts[k].clones + 1)];
      }
      var j := AddUserClone(k, user, rule);
      var (h, i) := Raised(was, user, host, rule);
      assert hosts == was[k := h] && j == i;
      killed := Watch(k, j, user, host, now);
    }

    // What addClone does once the client is counted.
    method Watch(k: string, j: nat, user: string, host: string, now: int) returns (killed: bool)
      requires k in hosts && j < |hosts[k].users| && k == Lower(host)
      modifies this`hosts, this`alerts
      ensures Added(TheTable(), killed) == Watched(old(TheTable()), k, j, user, host, now)
    {
      var hc := hosts[k];
      var uc := hc.users[j];
      if IgnoreFlag in hc.flags {
        return false;
      }
      if hc.clones >= hc.trigger || uc.clones >= uc.trigger {
        if KillFlag in hc.flags {
          DelClone(user, host, now);
          return true;
        }
      }
      var userAlert, hostAlert := false, false;
      if uc.clones >= uc.trigger && AlertFlag !in uc.uflags {
        uc := uc.(uflags := uc.uflags - {OkFlag} + {AlertFlag});
        userAlert := true;
      }
      if hc.clones >= hc.trigger && AlertFlag !in hc.flags {
        hc := hc.(flags := hc.flags - {OkFlag} + {AlertFlag});
        hostAlert := true;
      }
      hosts := hosts[k := hc.(users := hc.users[j := uc])];
      if userAlert || hostAlert {
        var pA := FindAlert(k);
        if pA.None? {
          alerts := [Alert(k, userAlert, hostAlert, now)] + alerts;
        } else {
          var a := alerts[pA.value];
          alerts := alerts[pA.value := a.(ua := a.ua || userAlert, ha := a.ha || hostAlert)];
        }
      }
      return false;
    }

    method RemoveAlert(k: string)
      modifies this`alerts
      ensures alerts == WithoutAlert(old(alerts), k)
    {
      var pA := FindAlert(k);
      if pA.Some? {
        alerts := alerts[..pA.value] + alerts[pA.value + 1..];
      }
    }

    /** delClone. */
    method DelClone(user: string, host: string, now: int)
      modifies this`hosts, this`alerts
      ensures TheTable() == UncountClone(old(TheTable()), user, host, now)
    {
      var k := Lower(host);
      if k !in hosts {
        return;
      }
      var found := FindUser(hosts[k].users, user);
      if found.None? {
        return;
      }
      var j := found.value;
      var hc := hosts[k].(clones := hosts[k].clones - 1);
      var uc := hc.users[j].(clones := hc.users[j].clones - 1);
      hc := hc.(users := if uc.clones == 0 then hc.users[..j] + hc.users[j + 1..] else hc.users[j := uc]);
      if hc.clones != 0 {
        var pA := FindAlert(k);
        if pA.Some? && hc.clones < hc.trigger && uc.clones < uc.trigger && now - alerts[pA.value].firstTime > 30 {
          RemoveAlert(k);
          if uc.clones > 0 && j < |hc.users| {
            hc := hc.(users := hc.users[j := hc.users[j].(uflags := hc.users[j].uflags - {AlertFlag})]);
          }
        }
        hosts := hosts[k := hc];
      } else {
        RemoveAlert(k);
        hosts := hosts - {k};
      }
    }

    method FindOnline(nick: string) returns (k: Option<nat>)
      ensures k == FindNick(online, nick)
    {
      var i := 0;
      assert online[0..] == online;
      while i < |online|
        invariant i <= |online|
        invariant FindNick(online, nick)
               == match FindNick(online[i..], nick) case None => None case Some(j) => Some(i + j)
      {
        if Lower(online[i].nick) == Lower(nick) {
          return Some(i);
        }
        assert online[i..][1..] == online[i + 1..];
        i := i + 1;
      }
      return None;
    }

    /** addNewUser, from where the record is filled in. */
    method AddNewUser(nick: string, user: string, host: string, refused: bool, rule: Option<Rule>, now: int)
      requires Valid()
      modifies this
      ensures Valid() && TheState() == Step(old(TheState()), NewUser(nick, user, host, refused, rule, now))
    {
      StepConserves(TheState(), NewUser(nick, user, host, refused, rule, now));
      if refused {
        return;
      }
      var killed := AddClone(user, host, rule, now);
      if !killed {
        online := [User(nick, user, host)] + online;
      }
    }

    /** remUser. */
    method RemUser(nick: string, now: int)
      requires Valid()
      modifies this
      ensures Valid() && TheState() == Removed(old(TheState()), nick, now)
    {
      RemovedConserves(TheState(), nick, now);
      var killme := FindOnline(nick);
      if killme.None? {
        return;
      }
      var i := killme.value;
      DelClone(online[i].user, online[i].host, now);
      online := online[..i] + online[i + 1..];
    }

    /** changeNick; `removed` where an autokill or a nick enforcer meets the new nick. */
    method ChangeNick(from: string, to: string, removed: bool, now: int)
      requires Valid()
      modifies this
      ensures Valid() && TheState() == Step(old(TheState()), Event.ChangeNick(from, to, removed, now))
    {
      var changeme := FindOnline(from);
      if changeme.None? {
        return;
      }
      var i := changeme.value;
      RenamedConserves(TheState(), i, to);
      online := [online[i].(nick := to)] + (online[..i] + online[i + 1..]);
      if removed {
        RemUser(to, now);
      }
    }
  }
}
