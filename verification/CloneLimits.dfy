/** clone.c: who addClone refuses, and on which hosts alerts are pending, told from the number of people online. */
module CloneLimits {
  import opened Text
  import opened Clones
  import L = ListMacros

  // ---- what is in force for a sign-on

  function HostLimit(rule: Option<Rule>, otherwise: int): int {
    if rule.Some? && rule.value.trigger > 1 then rule.value.trigger else otherwise
  }

  function UserLimit(rule: Option<Rule>): int {
    if rule.Some? && rule.value.utrigger > 0 then rule.value.utrigger else DEFUSERCLONETRIGGER
  }

  // The triggers and the flags of the host.
  datatype Limits = Limits(host: int, user: int, flags: set<Flag>)

  // A host is given its rule when it is first seen; one without a rule of its own takes that of its next new user.
  function InForce(t: Table, user: string, host: string, rule: Option<Rule>): Limits {
    var k := Lower(host);
    if k !in t.hosts then
      Limits(HostLimit(rule, DEFHOSTCLONETRIGGER), UserLimit(rule), if rule.Some? then rule.value.flags else {})
    else
      var h := t.hosts[k];
      match UserAt(h.users, user)
      case Some(j) => Limits(h.trigger, h.users[j].trigger, h.flags)
      case None =>
        if h.trigger == DEFHOSTCLONETRIGGER && h.flags == {} && rule.Some? then
          Limits(HostLimit(rule, h.trigger), UserLimit(rule), rule.value.flags)
        else Limits(h.trigger, UserLimit(rule), h.flags)
  }

  // The record of the host and its user once the client is counted.
  lemma RaisedIs(s: State, user: string, host: string, rule: Option<Rule>)
    requires Conserved(s.table, s.online)
    ensures var (h, j) := Raised(s.table.hosts, user, host, rule);
            && Limits(h.trigger, h.users[j].trigger, h.flags) == InForce(s.table, user, host, rule)
            && h.clones == OnlineAt(s.online, host) + 1 && h.users[j].clones == Online(s.online, user, host) + 1
            && Good(h) && Lower(h.users[j].user) == Lower(user)
            && (h.users[j].uflags == if IsListed(s.table, user, host) then UserFlags(s.table, user, host) else {})
  {
    HostCountsAreOnline(s.table, s.online, host);
    RaisedCounts(s.table, user, host, rule, user);
    assert Count(s.table.hosts, user, host) == Online(s.online, user, host);
  }

  predicate IsListed(t: Table, user: string, host: string) {
    Lower(host) in t.hosts && UserAt(t.hosts[Lower(host)].users, user).Some?
  }

  function UserTrigger(t: Table, user: string, host: string): int
    requires IsListed(t, user, host)
  {
    t.hosts[Lower(host)].users[UserAt(t.hosts[Lower(host)].users, user).value].trigger
  }

  function UserFlags(t: Table, user: string, host: string): set<Flag>
    requires IsListed(t, user, host)
  {
    t.hosts[Lower(host)].users[UserAt(t.hosts[Lower(host)].users, user).value].uflags
  }

  // As many people as the trigger allows are on the host, or have this user and host, the newcomer among them.
  predicate Reached(s: State, user: string, host: string, l: Limits) {
    OnlineAt(s.online, host) + 1 >= l.host || Online(s.online, user, host) + 1 >= l.user
  }

  /** A sign-on is refused exactly if the host has the kill flag and not the ignore flag, and with the newcomer as many
      are online on the host, or with its user and host, as a trigger says; else the newcomer is online. */
  lemma SignOnDecides(s: State, nick: string, user: string, host: string, rule: Option<Rule>, now: int)
    requires Conserved(s.table, s.online)
    ensures var t, l := Step(s, NewUser(nick, user, host, false, rule, now)), InForce(s.table, user, host, rule);
            t.online == if KillFlag in l.flags && IgnoreFlag !in l.flags && Reached(s, user, host, l) then s.online
                        else [User(nick, user, host)] + s.online
  {
    RaisedIs(s, user, host, rule);
  }

  /** A sign-on that is not refused leaves the limits in force, and an alert pending for each of them that is reached
      and has not been alerted to before; on a host with the ignore flag it leaves the alerts as they were. */
  lemma SignOnAlerts(s: State, nick: string, user: string, host: string, rule: Option<Rule>, now: int)
    requires Conserved(s.table, s.online)
    requires var l := InForce(s.table, user, host, rule);
             IgnoreFlag in l.flags || KillFlag !in l.flags || !Reached(s, user, host, l)
    ensures var t, l := Step(s, NewUser(nick, user, host, false, rule, now)).table, InForce(s.table, user, host, rule);
            var k := Lower(host);
            var watched := IgnoreFlag !in l.flags;
            var ha := watched && OnlineAt(s.online, host) + 1 >= l.host && AlertFlag !in l.flags;
            var ua := watched && Online(s.online, user, host) + 1 >= l.user
                      && !(IsListed(s.table, user, host) && AlertFlag in UserFlags(s.table, user, host));
            && IsListed(t, user, host) && t.hosts[k].trigger == l.host && UserTrigger(t, user, host) == l.user
            && t.hosts[k].flags == (if ha then l.flags - {OkFlag} + {AlertFlag} else l.flags)
            && Pending(t.alerts, k, ua, ha, AlertAt(s.table.alerts, k).Some?)
            && (forall k' :: k' != k ==> HasAlert(t.alerts, k') == HasAlert(s.table.alerts, k'))
            && (!ua && !ha ==> t.alerts == s.table.alerts)
  {
    RaisedIs(s, user, host, rule);
    var (h, j) := Raised(s.table.hosts, user, host, rule);
    WatchedLeaves(s.table.(hosts := s.table.hosts[Lower(host) := h]), h, j, user, host, now);
  }

  // The last stage of a sign-on that is not refused.
  lemma WatchedLeaves(t: Table, h: HostClone, j: nat, user: string, host: string, now: int)
    requires Lower(host) in t.hosts && t.hosts[Lower(host)] == h && j < |h.users|
    requires DistinctUsers(h.users) && Lower(h.users[j].user) == Lower(user)
    requires IgnoreFlag in h.flags || KillFlag !in h.flags
             || (h.clones < h.trigger && h.users[j].clones < h.users[j].trigger)
    ensures var k, uc, r := Lower(host), h.users[j], Watched(t, Lower(host), j, user, host, now).table;
            var watched := IgnoreFlag !in h.flags;
            var ha := watched && h.clones >= h.trigger && AlertFlag !in h.flags;
            var ua := watched && uc.clones >= uc.trigger && AlertFlag !in uc.uflags;
            && IsListed(r, user, host) && r.hosts[k].trigger == h.trigger && UserTrigger(r, user, host) == uc.trigger
            && r.hosts[k].flags == (if ha then h.flags - {OkFlag} + {AlertFlag} else h.flags)
            && Pending(r.alerts, k, ua, ha, AlertAt(t.alerts, k).Some?)
            && (forall k' :: k' != k ==> HasAlert(r.alerts, k') == HasAlert(t.alerts, k'))
            && (!ua && !ha ==> r.alerts == t.alerts)
  {
    var k := Lower(host);
    UserAtIs(h.users, j, user);
    if IgnoreFlag !in h.flags {
      var uc := h.users[j];
      var ua := uc.clones >= uc.trigger && AlertFlag !in uc.uflags;
      var ha := h.clones >= h.trigger && AlertFlag !in h.flags;
      RaisedAlert(t.alerts, k, ua, ha, now);
      var x := uc.(uflags := Alerted(uc.uflags, ua));
      UpdatedCount(h.users, j, x, user);
      UserAtIs(h.users[j := x], j, user);
    }
  }

  predicate HasAlert(alerts: seq<Alert>, k: string) {
    AlertAt(alerts, k).Some?
  }

  // The alert of k stands for what has been raised.
  predicate Pending(alerts: seq<Alert>, k: string, ua: bool, ha: bool, before: bool) {
    && HasAlert(alerts, k) == (before || ua || ha)
    && (ua ==> HasAlert(alerts, k) && alerts[AlertAt(alerts, k).value].ua)
    && (ha ==> HasAlert(alerts, k) && alerts[AlertAt(alerts, k).value].ha)
  }

  lemma {:induction false} AlertUpdated(alerts: seq<Alert>, i: nat, a: Alert, k: string)
    requires i < |alerts| && a.host == alerts[i].host
    ensures AlertAt(alerts[i := a], k) == AlertAt(alerts, k)
  {
    if i > 0 {
      assert alerts[i := a][1..] == alerts[1..][i - 1 := a];
      AlertUpdated(alerts[1..], i - 1, a, k);
    } else {
      assert alerts[0 := a][1..] == alerts[1..];
    }
  }

  lemma RaisedAlert(alerts: seq<Alert>, k: string, ua: bool, ha: bool, now: int)
    ensures var r := RaiseAlert(alerts, k, ua, ha, now);
            && Pending(r, k, ua, ha, HasAlert(alerts, k))
            && (forall k' :: k' != k ==> HasAlert(r, k') == HasAlert(alerts, k'))
  {
    var r := RaiseAlert(alerts, k, ua, ha, now);
    forall k'
      ensures k' != k ==> HasAlert(r, k') == HasAlert(alerts, k')
      ensures ua || ha ==> AlertAt(r, k) == if HasAlert(alerts, k) then AlertAt(alerts, k) else Some(0)
    {
      if (ua || ha) && HasAlert(alerts, k) {
        var i := AlertAt(alerts, k).value;
        AlertUpdated(alerts, i, r[i], k');
        AlertUpdated(alerts, i, r[i], k);
      } else if ua || ha {
        assert r[1..] == alerts;
      }
    }
  }

  // ---- a rule on a host, over whole runs

  // A rule that kills and does not ignore, with a trigger of its own.
  predicate Kills(r: Rule) {
    KillFlag in r.flags && IgnoreFlag !in r.flags && r.trigger > 1
  }

  // Every sign-on to the host finds this rule.
  predicate Ruled(events: seq<Event>, host: string, r: Rule) {
    forall i :: 0 <= i < |events| ==> RuledOne(events[i], host, r)
  }

  predicate RuledOne(e: Event, host: string, r: Rule) {
    e.NewUser? && Lower(e.host) == Lower(host) ==> e.rule == Some(r)
  }

  // The host's record, if it has one, is as the rule says.
  ghost predicate Set(t: Table, k: string, r: Rule) {
    k in t.hosts ==>
      && t.hosts[k].trigger == r.trigger && t.hosts[k].flags == r.flags
      && forall j :: 0 <= j < |t.hosts[k].users| ==> t.hosts[k].users[j].trigger == UserLimit(Some(r))
  }

  // Fewer are online on the host, and with each user and host, than the triggers say.
  ghost predicate Below(online: seq<User>, host: string, r: Rule) {
    OnlineAt(online, host) < r.trigger && forall user :: Online(online, user, host) < UserLimit(Some(r))
  }

  lemma LoweredSet(h: HostClone, j: nat, limit: int)
    requires j < |h.users| && forall i :: 0 <= i < |h.users| ==> h.users[i].trigger == limit
    ensures forall i :: 0 <= i < |Lowered(h, j).users| ==> Lowered(h, j).users[i].trigger == limit
  {
    var users := Lowered(h, j).users;
    forall i | 0 <= i < |users|
      ensures users[i].trigger == limit
    {
      assert users[i].trigger == h.users[if |users| < |h.users| && i >= j then i + 1 else i].trigger;
    }
  }

  lemma UncountSet(t: Table, user: string, host: string, now: int, k: string, r: Rule)
    requires Set(t, k, r)
    ensures Set(UncountClone(t, user, host, now), k, r)
  {
    if Lower(host) == k && k in t.hosts && UserAt(t.hosts[k].users, user).Some? {
      LoweredSet(t.hosts[k], UserAt(t.hosts[k].users, user).value, UserLimit(Some(r)));
    }
  }

  lemma RaisedSet(s: State, user: string, host: string, rule: Option<Rule>, k: string, r: Rule)
    requires Conserved(s.table, s.online) && Set(s.table, k, r) && Kills(r) && (Lower(host) == k ==> rule == Some(r))
    ensures Set(s.table.(hosts := s.table.hosts[Lower(host) := Raised(s.table.hosts, user, host, rule).0]), k, r)
  {
  }

  // Watching a client that reaches no trigger, or is killed, leaves triggers and flags alone.
  lemma WatchedSet(t: Table, k: string, j: nat, user: string, host: string, now: int, r: Rule)
    requires k in t.hosts && j < |t.hosts[k].users| && Set(t, k, r) && Kills(r)
    ensures Set(Watched(t, k, j, user, host, now).table, k, r)
  {
    UncountSet(t, user, host, now, k, r);
  }

  lemma WatchedElsewhere(t: Table, k: string, j: nat, user: string, host: string, now: int, k': string, r: Rule)
    requires k in t.hosts && j < |t.hosts[k].users| && Lower(host) == k && k' != k && Set(t, k', r)
    ensures Set(Watched(t, k, j, user, host, now).table, k', r)
  {
    UncountSet(t, user, host, now, k', r);
  }

  lemma SignOnSet(s: State, e: Event, host: string, r: Rule)
    requires Conserved(s.table, s.online) && Set(s.table, Lower(host), r) && Kills(r)
    requires e.NewUser? && RuledOne(e, host, r)
    ensures Set(Step(s, e).table, Lower(host), r)
  {
    var k, k' := Lower(e.host), Lower(host);
    var (h, j) := Raised(s.table.hosts, e.user, e.host, e.rule);
    var t1 := s.table.(hosts := s.table.hosts[k := h]);
    RaisedSet(s, e.user, e.host, e.rule, k', r);
    if k == k' {
      WatchedSet(t1, k, j, e.user, e.host, e.now, r);
    } else {
      WatchedElsewhere(t1, k, j, e.user, e.host, e.now, k', r);
    }
  }

  lemma SetInForce(t: Table, user: string, host: string, r: Rule)
    requires Set(t, Lower(host), r) && Kills(r)
    ensures InForce(t, user, host, Some(r)) == Limits(r.trigger, UserLimit(Some(r)), r.flags)
  {
  }

  lemma {:induction false} OnlineAtRemove(online: seq<User>, i: nat, host: string)
    requires i < |online|
    ensures OnlineAt(L.RemoveAt(online, i), host) == OnlineAt(online, host) - Same(online[i].host, host)
  {
    if i > 0 {
      assert L.RemoveAt(online, i)[1..] == L.RemoveAt(online[1..], i - 1);
      OnlineAtRemove(online[1..], i - 1, host);
    } else {
      assert L.RemoveAt(online, 0) == online[1..];
    }
  }

  lemma BelowRemoved(online: seq<User>, i: nat, host: string, r: Rule)
    requires Below(online, host, r) && i < |online|
    ensures Below(L.RemoveAt(online, i), host, r)
  {
    OnlineAtRemove(online, i, host);
    forall user
      ensures Online(L.RemoveAt(online, i), user, host) < UserLimit(Some(r))
    {
      OnlineRemove(online, i, user, host);
    }
  }

  lemma BelowRenamed(online: seq<User>, i: nat, to: string, host: string, r: Rule)
    requires Below(online, host, r) && i < |online|
    ensures Below([online[i].(nick := to)] + L.RemoveAt(online, i), host, r)
  {
    var x, rest := online[i].(nick := to), L.RemoveAt(online, i);
    OnlineAtRemove(online, i, host);
    assert ([x] + rest)[1..] == rest;
    forall user
      ensures Online([x] + rest, user, host) < UserLimit(Some(r))
    {
      OnlineRemove(online, i, user, host);
      OnlineAdd(x, rest, user, host);
    }
  }

  lemma BelowSignOn(s: State, e: Event, host: string, r: Rule)
    requires Conserved(s.table, s.online) && Below(s.online, host, r) && Kills(r)
    requires e.NewUser? && !e.refused && RuledOne(e, host, r) && Set(s.table, Lower(host), r)
    ensures Below(Step(s, e).online, host, r)
  {
    var x := User(e.nick, e.user, e.host);
    if Lower(e.host) == Lower(host) {
      SetInForce(s.table, e.user, e.host, r);
    }
    SignOnDecides(s, e.nick, e.user, e.host, e.rule, e.now);
    assert ([x] + s.online)[1..] == s.online;
    forall user
      ensures Online([x] + s.online, user, host)
           == Online(s.online, user, host) + Same(user, e.user) * Same(host, e.host)
    {
      OnlineAdd(x, s.online, user, host);
    }
    SameNames(s.online, e.user, e.host, host);
  }

  // Counts go by the lower-cased names.
  lemma {:induction false} SameNames(online: seq<User>, user: string, host: string, host': string)
    ensures Lower(host) == Lower(host') ==> OnlineAt(online, host) == OnlineAt(online, host')
    ensures forall u :: Lower(u) == Lower(user) && Lower(host) == Lower(host') ==>
              Online(online, u, host') == Online(online, user, host)
  {
    if online != [] {
      SameNames(online[1..], user, host, host');
    }
  }

  lemma RemovedHolds(s: State, nick: string, now: int, host: string, r: Rule)
    requires Set(s.table, Lower(host), r) && Below(s.online, host, r)
    ensures var t := Removed(s, nick, now); Set(t.table, Lower(host), r) && Below(t.online, host, r)
  {
    var i := FindNick(s.online, nick);
    if i.Some? {
      UncountSet(s.table, s.online[i.value].user, s.online[i.value].host, now, Lower(host), r);
      BelowRemoved(s.online, i.value, host, r);
    }
  }

  lemma RuleStep(s: State, e: Event, host: string, r: Rule)
    requires Conserved(s.table, s.online) && Kills(r) && RuledOne(e, host, r)
    requires Set(s.table, Lower(host), r) && Below(s.online, host, r)
    ensures var t := Step(s, e); Set(t.table, Lower(host), r) && Below(t.online, host, r)
  {
    match e
    case NewUser(_, _, _, refused, _, _) =>
      if !refused {
        SignOnSet(s, e, host, r);
        BelowSignOn(s, e, host, r);
      }
    case RemUser(nick, now) => RemovedHolds(s, nick, now, host, r);
    case ChangeNick(from, to, removed, now) =>
      var i := FindNick(s.online, from);
      if i.Some? {
        BelowRenamed(s.online, i.value, to, host, r);
        if removed {
          var renamed := [s.online[i.value].(nick := to)] + L.RemoveAt(s.online, i.value);
          RemovedHolds(s.(online := renamed), to, now, host, r);
        }
      }
  }

  /** In every run in which a host is under a kill rule, fewer people than its trigger are ever online on it, and fewer
      than the user trigger with the same user and host. */
  lemma {:induction false} KillRuleHolds(s: State, events: seq<Event>, host: string, r: Rule)
    requires Conserved(s.table, s.online) && Kills(r) && Ruled(events, host, r)
    requires Set(s.table, Lower(host), r) && Below(s.online, host, r)
    ensures Below(Run(s, events).online, host, r)
    decreases |events|
  {
    if events != [] {
      assert RuledOne(events[0], host, r);
      RuleStep(s, events[0], host, r);
      StepConserves(s, events[0]);
      assert forall i :: 0 <= i < |events| - 1 ==> events[1..][i] == events[i + 1];
      KillRuleHolds(Step(s, events[0]), events[1..], host, r);
    }
  }

  /** So it is from a network without users on. */
  lemma KillRuleHoldsFromStart(events: seq<Event>, host: string, r: Rule)
    requires Kills(r) && Ruled(events, host, r)
    ensures Below(Run(START, events).online, host, r)
  {
    KillRuleHolds(START, events, host, r);
  }

  // ---- what a sign-off does to the alert of a host

  /** The alert of a host goes with its last client, and with one that leaves it below the host's trigger and its user
      below the user's, more than half a minute after the alert; the flag that an alert was raised stays on the host. */
  lemma SignOffAlerts(s: State, i: nat, now: int)
    requires Conserved(s.table, s.online) && i < |s.online|
    ensures var r := s.online[i];
            var k, t := Lower(r.host), UncountClone(s.table, r.user, r.host, now);
            && IsListed(s.table, r.user, r.host)
            && var h, uc := s.table.hosts[k], s.table.hosts[k].users[UserAt(s.table.hosts[k].users, r.user).value];
               && HasAlert(t.alerts, k) == (HasAlert(s.table.alerts, k)
                    && OnlineAt(s.online, r.host) > 1
                    && !(OnlineAt(s.online, r.host) - 1 < h.trigger && Online(s.online, r.user, r.host) - 1 < uc.trigger
                         && now - s.table.alerts[AlertAt(s.table.alerts, k).value].firstTime > 30))
               && (k in t.hosts ==> t.hosts[k].flags == h.flags && t.hosts[k].trigger == h.trigger)
  {
    var r := s.online[i];
    var k := Lower(r.host);
    HostCountsAreOnline(s.table, s.online, r.host);
    OnlineRemove(s.online, i, r.user, r.host);
    assert Count(s.table.hosts, r.user, r.host) == Online(s.online, r.user, r.host);
    WithoutAlertNames(s.table.alerts, k);
    var a := WithoutAlert(s.table.alerts, k);
    assert !HasAlert(a, k);
  }

  /** A sign-on that brings a watched host to its trigger, and no new alert for its user, finds or leaves an alert
      pending exactly if one was pending or the host has not been flagged yet: after SignOffAlerts a flagged host may
      have none, and gets none again. */
  lemma HostAlertIff(s: State, nick: string, user: string, host: string, rule: Option<Rule>, now: int)
    requires Conserved(s.table, s.online)
    requires var l := InForce(s.table, user, host, rule);
             && IgnoreFlag !in l.flags && KillFlag !in l.flags
             && OnlineAt(s.online, host) + 1 >= l.host && Online(s.online, user, host) + 1 < l.user
    ensures var t, l := Step(s, NewUser(nick, user, host, false, rule, now)).table, InForce(s.table, user, host, rule);
            HasAlert(t.alerts, Lower(host)) <==> HasAlert(s.table.alerts, Lower(host)) || AlertFlag !in l.flags
  {
    SignOnAlerts(s, nick, user, host, rule, now);
  }

  // The state after someone of that name has signed on to the host of the example, and left.
  function Example(s: State, name: string, host: string, now: int): State {
    Step(s, NewUser(name, name, host, false, Some(Rule(2, 9, {})), now))
  }

  lemma ExampleStep(s: State, name: string, host: string, now: int)
    requires Conserved(s.table, s.online) && Lower(host) == host && Online(s.online, name, host) == 0
    requires host in s.table.hosts ==> s.table.hosts[host].trigger == 2 && s.table.hosts[host].flags <= {AlertFlag}
    ensures var t := Example(s, name, host, now);
            && Conserved(t.table, t.online) && t.online == [User(name, name, host)] + s.online
            && OnlineAt(t.online, host) == OnlineAt(s.online, host) + 1
            && IsListed(t.table, name, host) && UserTrigger(t.table, name, host) == 9
            && t.table.hosts[host].trigger == 2 && t.table.hosts[host].flags <= {AlertFlag}
            && (AlertFlag in t.table.hosts[host].flags <==>
                  OnlineAt(s.online, host) >= 1 || (host in s.table.hosts && AlertFlag in s.table.hosts[host].flags))
            && (HasAlert(t.table.alerts, host) <==>
                  HasAlert(s.table.alerts, host)
                  || (OnlineAt(s.online, host) >= 1
                      && !(host in s.table.hosts && AlertFlag in s.table.hosts[host].flags)))
  {
    var rule := Some(Rule(2, 9, {}));
    var t := Example(s, name, host, now);
    StepConserves(s, NewUser(name, name, host, false, rule, now));
    SignOnDecides(s, name, name, host, rule, now);
    SignOnAlerts(s, name, name, host, rule, now);
    HostCountsAreOnline(s.table, s.online, host);
    assert ([User(name, name, host)] + s.online)[1..] == s.online;
  }

  // When the alert of a host was raised.
  function Since(t: Table, k: string): int {
    if HasAlert(t.alerts, k) then t.alerts[AlertAt(t.alerts, k).value].firstTime else 0
  }

  // Different lower-cased names.
  predicate Apart(a: string, b: string, h: string) {
    Lower(a) == a && Lower(b) == b && Lower(h) == h && a != b
  }

  // Two people on the host of the example, and an alert.
  ghost predicate TwoOn(s: State, a: string, b: string, h: string) {
    && Conserved(s.table, s.online) && s.online == [User(b, b, h)] + [User(a, a, h)]
    && IsListed(s.table, b, h) && UserTrigger(s.table, b, h) == 9
    && s.table.hosts[Lower(h)].trigger == 2 && s.table.hosts[Lower(h)].flags == {AlertFlag}
    && HasAlert(s.table.alerts, h)
  }

  lemma TwoSignOn(a: string, b: string, h: string)
    requires Apart(a, b, h)
    ensures TwoOn(Example(Example(START, a, h, 0), b, h, 0), a, b, h)
  {
    var s := Example(START, a, h, 0);
    ExampleStep(START, a, h, 0);
    assert s.online == [User(a, a, h)];
    OnlineAdd(User(a, a, h), [], b, h);
    ExampleStep(s, b, h, 0);
  }

  lemma OneSignsOff(s: State, a: string, b: string, h: string, now: int)
    requires Apart(a, b, h) && TwoOn(s, a, b, h) && now > Since(s.table, h) + 30
    ensures var t := Step(s, RemUser(b, now));
            && Conserved(t.table, t.online) && t.online == [User(a, a, h)] && !HasAlert(t.table.alerts, h)
            && h in t.table.hosts && t.table.hosts[h].trigger == 2 && t.table.hosts[h].flags == {AlertFlag}
  {
    var t, k := Step(s, RemUser(b, now)), Lower(h);
    assert s.online[0] == User(b, b, h) && s.online[1..] == [User(a, a, h)] && s.online[1..][1..] == [];
    assert L.RemoveAt(s.online, 0) == [User(a, a, h)];
    OnlineAdd(User(b, b, h), [User(a, a, h)], b, h);
    OnlineAdd(User(a, a, h), [], b, h);
    assert OnlineAt([User(a, a, h)], h) == 1 by { assert [User(a, a, h)][1..] == []; }
    assert OnlineAt(s.online, h) == 2 && Online(s.online, b, h) == 1;
    SignOffAlerts(s, 0, now);
    assert t.table == UncountClone(s.table, b, h, now);
    assert !HasAlert(t.table.alerts, k);
    StepConserves(s, RemUser(b, now));
    HostCountsAreOnline(t.table, t.online, h);
  }

  /** Two people on a host with trigger 2, of whom one leaves half a minute after the alert and comes back: no alert. */
  lemma MissedAlertExample(a: string, b: string, h: string, s: State, left: State, t: State)
    requires a == "a" && b == "b" && h == "h" && s == Example(Example(START, a, h, 0), b, h, 0)
    requires left == Step(s, RemUser(b, Since(s.table, h) + 31)) && t == Example(left, b, h, Since(s.table, h) + 32)
    ensures HasAlert(s.table.alerts, h) && !HasAlert(t.table.alerts, h)
    ensures h in t.table.hosts && OnlineAt(t.online, h) == t.table.hosts[h].trigger == 2
  {
    assert Apart(a, b, h);
    MissedAlert(a, b, h, s, left, t);
  }

  lemma MissedAlert(a: string, b: string, h: string, s: State, left: State, t: State)
    requires Apart(a, b, h) && s == Example(Example(START, a, h, 0), b, h, 0)
    requires left == Step(s, RemUser(b, Since(s.table, h) + 31)) && t == Example(left, b, h, Since(s.table, h) + 32)
    ensures HasAlert(s.table.alerts, h) && !HasAlert(t.table.alerts, h)
    ensures h in t.table.hosts && OnlineAt(t.online, h) == t.table.hosts[h].trigger == 2
  {
    TwoSignOn(a, b, h);
    OneSignsOff(s, a, b, h, Since(s.table, h) + 31);
    OnlineAdd(User(a, a, h), [], b, h);
    ExampleStep(left, b, h, Since(s.table, h) + 32);
  }

  // ---- who is online

  lemma TakenOut(online: seq<User>, i: nat)
    requires i < |online|
    ensures multiset(L.RemoveAt(online, i)) == multiset(online) - multiset{online[i]}
  {
    assert online == online[..i] + [online[i]] + online[i + 1..];
  }

  // u is the record of that nick, and there is no other.
  ghost predicate Only(online: seq<User>, nick: string, u: User) {
    && u in online && Lower(u.nick) == Lower(nick)
    && forall v :: v in online && Lower(v.nick) == Lower(nick) ==> v == u
  }

  lemma {:induction false} FindsOnly(online: seq<User>, nick: string, u: User)
    requires Only(online, nick, u)
    ensures FindNick(online, nick).Some? && online[FindNick(online, nick).value] == u
    decreases |online|
  {
    if Lower(online[0].nick) != Lower(nick) {
      assert online[0] != u && u in online[1..];
      FindsOnly(online[1..], nick, u);
    }
  }

  // addNick
  lemma PutInFront(v: User, online: seq<User>)
    ensures multiset([v] + online) == multiset{v} + multiset(online)
  {
  }

  // The online list after remUser.
  lemma RemovedPeople(s: State, nick: string, now: int, u: User)
    requires Only(s.online, nick, u)
    ensures multiset(Removed(s, nick, now).online) == multiset(s.online) - multiset{u}
  {
    FindsOnly(s.online, nick, u);
    TakenOut(s.online, FindNick(s.online, nick).value);
  }

  lemma RenamedPeople(s: State, from: string, to: string, removed: bool, now: int, u: User)
    requires Only(s.online, from, u)
    ensures multiset(Step(s, ChangeNick(from, to, removed, now)).online)
         == multiset(s.online) - multiset{u} + (if removed then multiset{} else multiset{u.(nick := to)})
  {
    FindsOnly(s.online, from, u);
    var i, v := FindNick(s.online, from).value, u.(nick := to);
    var rest := L.RemoveAt(s.online, i);
    TakenOut(s.online, i);
    PutInFront(v, rest);
    if removed {
      assert L.RemoveAt([v] + rest, 0) == rest;
    }
  }

  /** A quit takes exactly the record of that nick off the list, whatever clone counts say, and a nick change exactly
      renames it, or takes it off where the user is removed; a sign-on adds exactly the newcomer or nobody. */
  lemma StepPeople(s: State, e: Event, u: User)
    requires match e
             case NewUser(_, _, _, _, _, _) => true
             case RemUser(nick, _) => Only(s.online, nick, u)
             case ChangeNick(from, _, _, _) => Only(s.online, from, u)
    ensures var before, after := multiset(s.online), multiset(Step(s, e).online);
            match e
            case NewUser(nick, user, host, refused, _, _) =>
              after == before || (!refused && after == before + multiset{User(nick, user, host)})
            case RemUser(_, _) => after == before - multiset{u}
            case ChangeNick(_, to, removed, _) =>
              after == before - multiset{u} + (if removed then multiset{} else multiset{u.(nick := to)})
  {
    match e
    case NewUser(nick, user, host, _, _, _) => PutInFront(User(nick, user, host), s.online);
    case RemUser(nick, now) => RemovedPeople(s, nick, now, u);
    case ChangeNick(from, to, removed, now) => RenamedPeople(s, from, to, removed, now, u);
  }
}
