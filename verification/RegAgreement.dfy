/** chanserv.c: the `reg` pointer of a channel that is online, and the table of registered channels it has to agree
    with. Both tables are maps from the lower-cased name; a registration record is a number. */
module RegAgreement {
  import opened Text

  const CHANDROPTIME := 15 * 24 * 3600

  datatype Reg = Reg(id: nat, timestamp: int, held: bool, banished: bool)

  // The channels online with their `reg`, the registrations, and the number of the next record. `freed` is set where a
  // command goes on to use a record that addRegChan has freed.
  datatype State = State(online: map<string, Option<nat>>, regs: map<string, Reg>, next: nat, freed: bool)

  // getRegChanData
  function Lookup(regs: map<string, Reg>, k: string): Option<nat> {
    if k in regs then Some(regs[k].id) else None
  }

  /** Each online channel's `reg` is what a lookup of its name finds, no two names share a record, and no freed record
      is in use. */
  ghost predicate Agree(s: State) {
    && !s.freed
    && (forall k :: k in s.online ==> s.online[k] == Lookup(s.regs, k))
    && (forall k :: k in s.regs ==> s.regs[k].id < s.next)
    && (forall j, k :: j in s.regs && k in s.regs && s.regs[j].id == s.regs[k].id ==> j == k)
  }

  // ---- the commands

  // addRegChan: a record whose name is taken is freed.
  function Listed(s: State, k: string, r: Reg): State {
    if k in s.regs then s.(freed := true) else s.(regs := s.regs[k := r])
  }

  // `chan->reg = reg`, if the channel is online.
  function Pointed(s: State, k: string, reg: Option<nat>): State {
    if k in s.online then s.(online := s.online[k := reg]) else s
  }

  // cs_register past its checks on the sender: `opped` is being opped in the channel, `override` one of the two
  // override flags that do without.
  function Registered(s: State, name: string, opped: bool, override: bool, now: int): State {
    var k := Lower(name);
    if k in s.online && s.online[k].Some? then s
    else if (k !in s.online || !opped) && !override then s
    else
      Listed(Pointed(s, k, Some(s.next)), k, Reg(s.next, now, false, false)).(next := s.next + 1)
  }

  function Cut(name: string): string {
    if |name| < CHANLEN then name else name[..CHANLEN - 1]
  }

  // A new record listed under c while the channel k is pointed at it.
  function ListedAndPointed(s: State, c: string, r: Reg, k: string): State {
    Pointed(Listed(s, c, r), k, Some(s.next)).(next := s.next + 1)
  }

  // cs_banish without a third argument: the record's name is cut to fit, the channel is looked up under the name given.
  function Banished(s: State, name: string, now: int): State {
    var k := Lower(name);
    if k in s.regs then s.(regs := s.regs[k := s.regs[k].(banished := true)])
    else ListedAndPointed(s, Lower(Cut(name)), Reg(s.next, now, false, true), k)
  }

  // cs_drop and cs_delete: the online channel is told first.
  function Dropped(s: State, name: string): State {
    var k := Lower(name);
    if k !in s.regs then s
    else
      var t := Pointed(s, k, None);
      t.(regs := t.regs - {k})
  }

  predicate Stale(r: Reg, now: int) {
    now - r.timestamp >= CHANDROPTIME && !r.held && !r.banished
  }

  // expireChans
  function Expired(s: State, now: int): State {
    s.(online := map k | k in s.online :: if k in s.regs && Stale(s.regs[k], now) then None else s.online[k],
       regs := map k | k in s.regs && !Stale(s.regs[k], now) :: s.regs[k])
  }

  // addUserToChan on a channel that is not online.
  function Created(s: State, name: string): State {
    var k := Lower(name);
    if k in s.online then s else s.(online := s.online[k := Lookup(s.regs, k)])
  }

  datatype Event =
    | Create(name: string)
    | Close(name: string)
    | Register(name: string, opped: bool, override: bool, now: int)
    | Banish(name: string, now: int)
    | Drop(name: string)
    | Expire(now: int)
    | Refresh(name: string)
    | Keep(name: string, timestamp: int, held: bool, banished: bool)

  // Close is delChan; Refresh is the lookup cs_op makes; Keep is any change of the fields that expiry looks at.
  function Step(s: State, e: Event): State {
    match e
    case Create(name) => Created(s, name)
    case Close(name) => s.(online := s.online - {Lower(name)})
    case Register(name, opped, override, now) => Registered(s, name, opped, override, now)
    case Banish(name, now) => Banished(s, name, now)
    case Drop(name) => Dropped(s, name)
    case Expire(now) => Expired(s, now)
    case Refresh(name) => Pointed(s, Lower(name), Lookup(s.regs, Lower(name)))
    case Keep(name, timestamp, held, banished) => Kept(s, Lower(name), timestamp, held, banished)
  }

  function Kept(s: State, k: string, timestamp: int, held: bool, banished: bool): State {
    if k in s.regs then s.(regs := s.regs[k := s.regs[k].(timestamp := timestamp, held := held, banished := banished)])
    else s
  }

  // ---- agreement

  // cs_register looks the name up only through the online channel, so an override can register an offline name again.
  predicate RegistersAgain(s: State, name: string, override: bool) {
    Lower(name) !in s.online && Lower(name) in s.regs && override
  }

  /** Registering keeps the agreement exactly if it is not an override registration of an offline channel that is
      already registered. */
  lemma RegisterKeepsIff(s: State, name: string, opped: bool, override: bool, now: int)
    requires Agree(s)
    ensures Agree(Registered(s, name, opped, override, now)) <==> !RegistersAgain(s, name, override)
  {
    var k, t := Lower(name), Registered(s, name, opped, override, now);
    if !RegistersAgain(s, name, override) && t != s {
      assert k !in s.regs;
      forall j | j in t.online
        ensures t.online[j] == Lookup(t.regs, j)
      {
        if j != k {
          assert s.online[j] == Lookup(s.regs, j);
        }
      }
    }
  }

  // The name cut to fit is taken, or another channel that is online has it.
  predicate CutCollides(s: State, name: string) {
    Lower(name) !in s.regs
      && (Lower(Cut(name)) in s.regs
          || (Lower(Cut(name)) != Lower(name) && (Lower(Cut(name)) in s.online || Lower(name) in s.online)))
  }

  lemma ListedAgrees(s: State, c: string, r: Reg, k: string)
    requires Agree(s) && r.id == s.next && c !in s.regs && (c == k || (c !in s.online && k !in s.online))
    ensures Agree(ListedAndPointed(s, c, r, k))
  {
    var t := ListedAndPointed(s, c, r, k);
    forall j | j in t.online
      ensures t.online[j] == Lookup(t.regs, j)
    {
      assert s.online[j] == Lookup(s.regs, j);
    }
  }

  lemma ListedApart(s: State, c: string, r: Reg, k: string)
    requires Agree(s) && r.id == s.next && c !in s.regs && c != k && k !in s.regs && (c in s.online || k in s.online)
    ensures !Agree(ListedAndPointed(s, c, r, k))
  {
    var t := ListedAndPointed(s, c, r, k);
    if c in s.online {
      assert s.online[c] == None && t.online[c] != Lookup(t.regs, c);
    } else {
      assert t.online[k] != Lookup(t.regs, k);
    }
  }

  lemma MarkedAgrees(s: State, k: string)
    requires Agree(s) && k in s.regs
    ensures Agree(s.(regs := s.regs[k := s.regs[k].(banished := true)]))
  {
    PointedLookup(s, s.(regs := s.regs[k := s.regs[k].(banished := true)]));
  }

  /** Banishing keeps the agreement exactly if the name, cut to the length of a record's, does not meet another. */
  lemma BanishKeepsIff(s: State, name: string, now: int)
    requires Agree(s)
    ensures Agree(Banished(s, name, now)) <==> !CutCollides(s, name)
    ensures |name| < CHANLEN ==> !CutCollides(s, name)
  {
    var k, c, r := Lower(name), Lower(Cut(name)), Reg(s.next, now, false, true);
    if k in s.regs {
      MarkedAgrees(s, k);
    } else {
      if !CutCollides(s, name) {
        ListedAgrees(s, c, r, k);
      } else if c !in s.regs {
        ListedApart(s, c, r, k);
      }
    }
  }

  lemma PointedLookup(s: State, t: State)
    requires Agree(s) && !t.freed && t.next == s.next
    requires t.online.Keys <= s.online.Keys && t.regs.Keys <= s.regs.Keys
    requires forall k :: k in t.regs ==> t.regs[k].id == s.regs[k].id
    requires forall k :: k in t.online ==> t.online[k] == if k in t.regs then s.online[k] else None
    ensures Agree(t)
  {
    forall k | k in t.online
      ensures t.online[k] == Lookup(t.regs, k)
    {
      assert s.online[k] == Lookup(s.regs, k);
    }
  }

  // The two commands that may not keep the agreement do.
  predicate Kind(s: State, e: Event) {
    && (e.Register? ==> !RegistersAgain(s, e.name, e.override))
    && (e.Banish? ==> !CutCollides(s, e.name))
  }

  lemma CreatedAgrees(s: State, name: string)
    requires Agree(s)
    ensures Agree(Created(s, name))
  {
    var t := Created(s, name);
    forall k | k in t.online
      ensures t.online[k] == Lookup(t.regs, k)
    {
      if k in s.online {
        assert s.online[k] == Lookup(s.regs, k);
      }
    }
  }

  lemma ExpiredAgrees(s: State, now: int)
    requires Agree(s)
    ensures Agree(Expired(s, now))
  {
    PointedLookup(s, Expired(s, now));
  }

  lemma DroppedAgrees(s: State, name: string)
    requires Agree(s)
    ensures Agree(Dropped(s, name))
  {
    PointedLookup(s, Dropped(s, name));
  }

  lemma KeptAgrees(s: State, k: string, timestamp: int, held: bool, banished: bool)
    requires Agree(s)
    ensures Agree(Kept(s, k, timestamp, held, banished))
  {
    PointedLookup(s, Kept(s, k, timestamp, held, banished));
  }

  lemma StepAgreesIff(s: State, e: Event)
    requires Agree(s)
    ensures Agree(Step(s, e)) <==> Kind(s, e)
  {
    match e
    case Create(name) => CreatedAgrees(s, name);
    case Close(name) => PointedLookup(s, Step(s, e));
    case Register(name, opped, override, now) => RegisterKeepsIff(s, name, opped, override, now);
    case Banish(name, now) => BanishKeepsIff(s, name, now);
    case Drop(name) => DroppedAgrees(s, name);
    case Expire(now) => ExpiredAgrees(s, now);
    case Refresh(name) => PointedLookup(s, Step(s, e));
    case Keep(name, timestamp, held, banished) => KeptAgrees(s, Lower(name), timestamp, held, banished);
  }

  predicate KindRun(s: State, events: seq<Event>)
    decreases |events|
  {
    events == [] || (Kind(s, events[0]) && KindRun(Step(s, events[0]), events[1..]))
  }

  // The agreement holds at every point of the run.
  ghost predicate StaysAgreed(s: State, events: seq<Event>)
    decreases |events|
  {
    Agree(s) && (events == [] || StaysAgreed(Step(s, events[0]), events[1..]))
  }

  function Run(s: State, events: seq<Event>): State
    decreases |events|
  {
    if events == [] then s else Run(Step(s, events[0]), events[1..])
  }

  // The test of cs_set on a channel that is online and registered.
  predicate SanityCheckFires(s: State, name: string) {
    Lower(name) in s.online && Lower(name) in s.regs && s.online[Lower(name)] != Lookup(s.regs, Lower(name))
  }

  /** A run keeps every online channel in agreement with the registry throughout exactly if no override registers an
      offline channel again and no banished name, cut to fit, meets another; and then cs_set's sanity check never
      fires. */
  lemma {:induction false} RegistryAgrees(s: State, events: seq<Event>)
    requires Agree(s)
    ensures StaysAgreed(s, events) <==> KindRun(s, events)
    ensures KindRun(s, events) ==> Agree(Run(s, events)) && forall name :: !SanityCheckFires(Run(s, events), name)
    decreases |events|
  {
    if events != [] {
      StepAgreesIff(s, events[0]);
      if Kind(s, events[0]) {
        RegistryAgrees(Step(s, events[0]), events[1..]);
      }
    }
  }

  const START := State(map[], map[], 0, false)

  /** So it is from empty tables on. */
  lemma RegistryAgreesFromStart(events: seq<Event>)
    ensures StaysAgreed(START, events) <==> KindRun(START, events)
    ensures KindRun(START, events) ==>
              Agree(Run(START, events)) && forall name :: !SanityCheckFires(Run(START, events), name)
  {
    RegistryAgrees(START, events);
  }

  lemma RunTwo(s: State, a: Event, b: Event)
    ensures Run(s, [a, b]) == Step(Step(s, a), b)
  {
    assert [a, b][1..] == [b] && [b][1..] == [];
    assert Run(Step(s, a), [b]) == Run(Step(Step(s, a), b), []);
  }

  /** Two override registrations of a channel that is not online. */
  lemma RegisterTwiceExample(e: Event)
    requires e == Event.Register("#a", false, true, 0)
    ensures !Agree(Run(START, [e, e]))
  {
    RunTwo(START, e, e);
    RegisterKeepsIff(START, "#a", false, true, 0);
    RegisterKeepsIff(Step(START, e), "#a", false, true, 0);
  }

  /** Banishing a name of 33 characters twice: the second time it is not found, and the record cut from it is freed. */
  lemma BanishTwiceExample(name: string, e: Event)
    requires name == "#" + Repeat('a', 32) && e == Event.Banish(name, 0)
    ensures !Agree(Run(START, [e, e]))
  {
    RunTwo(START, e, e);
    BanishKeepsIff(START, name, 0);
    BanishKeepsIff(Step(START, e), name, 0);
    assert |Lower(name)| == 33 && |Lower(Cut(name))| == 32;
  }

  // ---- what becomes of a registration

  // The run never drops the name k, and each expiry finds it held or banished or used within fifteen days, where `last`
  // is when it was used and `kept` whether it is held or banished.
  predicate Touched(events: seq<Event>, k: string, last: int, kept: bool)
    decreases |events|
  {
    events == []
    || match events[0]
       case Drop(name) => Lower(name) != k && Touched(events[1..], k, last, kept)
       case Expire(now) => (kept || now < last + 15 * 86400) && Touched(events[1..], k, last, kept)
       case Keep(name, timestamp, held, banished) =>
         if Lower(name) == k then Touched(events[1..], k, timestamp, held || banished)
         else Touched(events[1..], k, last, kept)
       case Banish(name, _) => Touched(events[1..], k, last, kept || Lower(name) == k)
       case _ => Touched(events[1..], k, last, kept)
  }

  // The record id is registered under k at every point of the run.
  predicate StaysListed(s: State, events: seq<Event>, k: string, id: nat)
    decreases |events|
  {
    k in s.regs && s.regs[k].id == id && (events == [] || StaysListed(Step(s, events[0]), events[1..], k, id))
  }

  // One step of the run, for a name that is registered.
  lemma StepOnListed(s: State, e: Event, k: string)
    requires k in s.regs
    ensures var r, regs := s.regs[k], Step(s, e).regs;
            match e
            case Drop(name) => (k in regs <==> Lower(name) != k) && (k in regs ==> regs[k] == r)
            case Expire(now) => (k in regs <==> r.held || r.banished || now < r.timestamp + 15 * 86400)
                                && (k in regs ==> regs[k] == r)
            case Keep(name, timestamp, held, banished) =>
              k in regs && regs[k] == if Lower(name) == k then Reg(r.id, timestamp, held, banished) else r
            case Banish(name, _) => k in regs && regs[k] == r.(banished := r.banished || Lower(name) == k)
            case _ => k in regs && regs[k] == r
  {
  }

  /** A registration survives a run exactly if the run does not drop it and never lets it go unused for fifteen days
      up to an expiry while it is neither held nor banished. */
  lemma {:induction false} SurvivesIff(s: State, events: seq<Event>, k: string)
    requires k in s.regs
    ensures StaysListed(s, events, k, s.regs[k].id)
       <==> Touched(events, k, s.regs[k].timestamp, s.regs[k].held || s.regs[k].banished)
    decreases |events|
  {
    if events != [] {
      var t := Step(s, events[0]);
      StepOnListed(s, events[0], k);
      if k in t.regs {
        SurvivesIff(t, events[1..], k);
      }
    }
  }

  /** A name that is not registered gets a record of its own exactly if the sender is opped in its channel or
      overrides; dropping it puts everything back but the count of records. */
  lemma DropUndoesRegister(s: State, name: string, opped: bool, override: bool, now: int)
    requires Agree(s) && Lower(name) !in s.regs
    ensures var k, t := Lower(name), Registered(s, name, opped, override, now);
            if override || (opped && k in s.online) then
              && t.regs == s.regs[k := Reg(s.next, now, false, false)]
              && t.online == (if k in s.online then s.online[k := Some(s.next)] else s.online)
              && Dropped(t, name) == s.(next := s.next + 1)
            else t == s
  {
    var k, t := Lower(name), Registered(s, name, opped, override, now);
    assert k in s.online ==> s.online[k] == Lookup(s.regs, k);
    if t != s {
      assert Dropped(t, name).regs == s.regs;
      assert Dropped(t, name).online == s.online;
    }
  }

  /** A name that fits is banished afterwards, keeping its record if it had one, and its channel knows; no other name
      is touched. */
  lemma BanishTakesEffect(s: State, name: string, now: int)
    requires Agree(s) && |name| < CHANLEN
    ensures var k, t := Lower(name), Banished(s, name, now);
            && k in t.regs && t.regs[k].banished && (k in t.online ==> t.online[k] == Some(t.regs[k].id))
            && t.regs[k].id == (if k in s.regs then s.regs[k].id else s.next)
            && t.regs - {k} == s.regs - {k} && t.online.Keys == s.online.Keys
            && forall j :: j in s.online && j != k ==> t.online[j] == s.online[j]
  {
    var k, t := Lower(name), Banished(s, name, now);
    assert k in s.online ==> s.online[k] == Lookup(s.regs, k);
    assert t.regs - {k} == s.regs - {k};
  }

  // Whether a run leaves the channel k online: the last of its openings and closings decides.
  predicate LeftOnline(events: seq<Event>, k: string, before: bool)
    decreases |events|
  {
    if events == [] then before
    else match events[|events| - 1]
         case Create(name) => Lower(name) == k || LeftOnline(events[..|events| - 1], k, before)
         case Close(name) => Lower(name) != k && LeftOnline(events[..|events| - 1], k, before)
         case _ => LeftOnline(events[..|events| - 1], k, before)
  }

  lemma {:induction false} RunLast(s: State, events: seq<Event>)
    requires events != []
    ensures Run(s, events) == Step(Run(s, events[..|events| - 1]), events[|events| - 1])
    decreases |events|
  {
    if |events| == 1 {
      assert events[1..] == [] && events[..0] == [];
      assert Run(Step(s, events[0]), []) == Step(s, events[0]);
    } else {
      RunLast(Step(s, events[0]), events[1..]);
      assert events[1..][..|events| - 2] == events[..|events| - 1][1..];
    }
  }

  lemma StepOnline(s: State, e: Event, k: string)
    ensures k in Step(s, e).online
       <==> match e
            case Create(name) => k in s.online || Lower(name) == k
            case Close(name) => k in s.online && Lower(name) != k
            case _ => k in s.online
  {
  }

  /** Registering, banishing, dropping, expiring and looking up never open or close a channel. */
  lemma {:induction false} OnlineIff(s: State, events: seq<Event>, k: string)
    ensures k in Run(s, events).online <==> LeftOnline(events, k, k in s.online)
    decreases |events|
  {
    if events != [] {
      var before, e := Run(s, events[..|events| - 1]), events[|events| - 1];
      OnlineIff(s, events[..|events| - 1], k);
      RunLast(s, events);
      StepOnline(before, e, k);
    }
  }

  // ---- chanserv.c

  class ChanServ {
    var online: map<string, Option<nat>>
    var regs: map<string, Reg>
    var next: nat
    var freed: bool

    ghost function TheState(): State
      reads this
    {
      State(online, regs, next, freed)
    }

    constructor ()
      ensures TheState() == START
    {
      online, regs, next, freed := map[], map[], 0, false;
    }

    // addRegChan
    method AddRegChan(k: string, r: Reg)
      modifies this`regs, this`freed
      ensures TheState() == Listed(old(TheState()), k, r)
    {
      if k in regs {
        freed := true;
        return;
      }
      regs := regs[k := r];
    }

    /** The part of addUserToChan that puts a new channel online. */
    method Create(name: string)
      requires Agree(TheState())
      modifies this`online
      ensures Agree(TheState()) && TheState() == Created(old(TheState()), name)
    {
      CreatedAgrees(TheState(), name);
      var k := Lower(name);
      if k !in online {
        var reg: Option<nat> := if k in regs then Some(regs[k].id) else None;
        online := online[k := reg];
      }
    }

    /** cs_register. */
    method Register(name: string, opped: bool, override: bool, now: int)
      requires Agree(TheState())
      modifies this
      ensures TheState() == Registered(old(TheState()), name, opped, override, now)
      ensures Agree(TheState()) <==> !RegistersAgain(old(TheState()), name, override)
    {
      RegisterKeepsIff(TheState(), name, opped, override, now);
      var k := Lower(name);
      if k in online && online[k].Some? {
        return;
      }
      if k !in online || !opped {
        if !override {
          return;
        }
      }
      var reg := Reg(next, now, false, false);
      next := next + 1;
      if k in online {
        online := online[k := Some(reg.id)];
      }
      AddRegChan(k, reg);
    }

    /** cs_banish. */
    method Banish(name: string, now: int)
      requires Agree(TheState())
      modifies this
      ensures TheState() == Banished(old(TheState()), name, now)
      ensures Agree(TheState()) <==> !CutCollides(old(TheState()), name)
    {
      BanishKeepsIff(TheState(), name, now);
      var k := Lower(name);
      if k !in regs {
        var chan := Reg(next, now, false, true);
        next := next + 1;
        AddRegChan(Lower(Cut(name)), chan);
        if k in online {
          online := online[k := Some(chan.id)];
        }
      } else {
        regs := regs[k := regs[k].(banished := true)];
      }
    }

    /** cs_drop and cs_delete. */
    method Drop(name: string)
      requires Agree(TheState())
      modifies this`online, this`regs
      ensures Agree(TheState()) && TheState() == Dropped(old(TheState()), name)
    {
      DroppedAgrees(TheState(), name);
      var k := Lower(name);
      if k !in regs {
        return;
      }
      if k in online {
        online := online[k := None];
      }
      regs := regs - {k};
    }

    // One stale registration of the pass.
    method ExpireOne(k: string, ghost now: int)
      requires k in regs && Stale(regs[k], now)
      modifies this`online, this`regs
      ensures regs == old(regs) - {k} && Expired(TheState(), now) == Expired(old(TheState()), now)
    {
      if k in online {
        online := online[k := None];
      }
      regs := regs - {k};
      ExpiredSame(old(TheState()), TheState(), k, now);
    }

    /** expireChans: a pass over the registrations, in any order. */
    method Expire(now: int)
      requires Agree(TheState())
      modifies this`online, this`regs
      ensures Agree(TheState()) && TheState() == Expired(old(TheState()), now)
    {
      ExpiredAgrees(TheState(), now);
      ghost var whole := Expired(TheState(), now);
      var todo := regs.Keys;
      while todo != {}
        invariant todo <= regs.Keys && Expired(TheState(), now) == whole
        invariant forall k :: k in regs && k !in todo ==> !Stale(regs[k], now)
        decreases |todo|
      {
        var k :| k in todo;
        todo := todo - {k};
        if now - regs[k].timestamp >= CHANDROPTIME && !(regs[k].held || regs[k].banished) {
          ExpireOne(k, now);
        }
      }
      NothingStale(TheState(), now);
    }

    /** The check cs_set makes: the warning is never logged. */
    method SetCheck(name: string) returns (warned: bool)
      requires Agree(TheState())
      ensures !warned
    {
      var k := Lower(name);
      warned := false;
      if k in regs && k in online && online[k] != Some(regs[k].id) {
        warned := true;
      }
    }
  }

  lemma NothingStale(s: State, now: int)
    requires forall k :: k in s.regs ==> !Stale(s.regs[k], now)
    ensures Expired(s, now) == s
  {
    assert Expired(s, now).online == s.online;
    assert Expired(s, now).regs == s.regs;
  }

  // Taking one stale record out early makes no difference to the pass.
  lemma ExpiredSame(s: State, t: State, k: string, now: int)
    requires k in s.regs && Stale(s.regs[k], now)
    requires t == Pointed(s, k, None).(regs := s.regs - {k})
    ensures Expired(t, now) == Expired(s, now)
  {
    assert Expired(t, now).online == Expired(s, now).online;
    assert Expired(t, now).regs == Expired(s, now).regs;
  }
}
