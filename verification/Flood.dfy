/** nickserv.c: the flood level of a user, and what addFlood does about it. */
module Flood {
  import opened Text
  import L = ListMacros

  const FLOOD_DET_HALF_PERIOD := 5
  const FLOOD_DET_Z_PERIOD := 10
  const MAXFLOODLEVEL := 100
  const UCHAR_MAX := 255
  const INT_MAX := 0x7FFF_FFFF

  type UInt = x: nat | x < 0x1_0000_0000

  datatype Rate = Rate(lastEventTime: int, rateFloodValue: UInt, numOfEvents: UInt, warningsSent: nat)

  const FRESH := Rate(0, 0, 0, 0)

  // RateInfo::Event
  function Counted(r: Rate, weight: int, now: int): Rate {
    var halved := if now - r.lastEventTime >= FLOOD_DET_HALF_PERIOD then r.rateFloodValue / 2 else r.rateFloodValue;
    var value := if now - r.lastEventTime <= FLOOD_DET_Z_PERIOD then halved + weight else weight;
    Rate(now, value % 0x1_0000_0000, if r.numOfEvents < INT_MAX then r.numOfEvents + 1 else r.numOfEvents,
         r.warningsSent)
  }

  // RateInfo::GetLev, with its conversion to int.
  function Lev(r: Rate): int {
    if r.rateFloodValue <= INT_MAX then r.rateFloodValue else r.rateFloodValue - 0x1_0000_0000
  }

  // RateInfo::Warn
  function WarnedOnce(r: Rate): Rate {
    if r.warningsSent < UCHAR_MAX then r.(warningsSent := r.warningsSent + 1) else r
  }

  // ---- the decay bound

  datatype Hit = Hit(weight: int, now: int)

  function CountedAll(r: Rate, hits: seq<Hit>): Rate
    decreases |hits|
  {
    if hits == [] then r else CountedAll(Counted(r, hits[0].weight, hits[0].now), hits[1..])
  }

  // Weights of at most w, each at least the half period after the one before.
  predicate Spaced(last: int, hits: seq<Hit>, w: nat)
    decreases |hits|
  {
    hits == [] || (0 <= hits[0].weight <= w && hits[0].now - last >= FLOOD_DET_HALF_PERIOD
                   && Spaced(hits[0].now, hits[1..], w))
  }

  lemma {:induction false} DecayBound(r: Rate, hits: seq<Hit>, w: nat)
    requires w >= 1 && Spaced(r.lastEventTime, hits, w) && r.rateFloodValue <= 2 * w - 1
    ensures CountedAll(r, hits).rateFloodValue <= 2 * w - 1
    decreases |hits|
  {
    if hits != [] {
      DecayBound(Counted(r, hits[0].weight, hits[0].now), hits[1..], w);
    }
  }

  // n events of weight w, five seconds apart.
  function Steady(w: nat, from: int, n: nat): (hits: seq<Hit>)
    ensures |hits| == n
    decreases n
  {
    if n == 0 then [] else [Hit(w, from + FLOOD_DET_HALF_PERIOD)] + Steady(w, from + FLOOD_DET_HALF_PERIOD, n - 1)
  }

  lemma {:induction false} SteadyIsSpaced(w: nat, from: int, n: nat)
    ensures Spaced(from, Steady(w, from, n), w)
    decreases n
  {
    if n > 0 {
      SteadyIsSpaced(w, from + FLOOD_DET_HALF_PERIOD, n - 1);
      assert Steady(w, from, n)[1..] == Steady(w, from + FLOOD_DET_HALF_PERIOD, n - 1);
    }
  }

  // Each event halves the distance to 2 * w - 1.
  lemma {:induction false} SteadyHolds(r: Rate, w: nat, gap: nat, n: nat)
    requires 1 <= w < 0x4000_0000 && r.rateFloodValue + gap == 2 * w - 1 && gap <= n
    ensures CountedAll(r, Steady(w, r.lastEventTime, n)).rateFloodValue == 2 * w - 1
    decreases n
  {
    if n > 0 {
      var next := Counted(r, w, r.lastEventTime + FLOOD_DET_HALF_PERIOD);
      assert next.rateFloodValue + gap / 2 == 2 * w - 1;
      assert Steady(w, r.lastEventTime, n)[1..] == Steady(w, next.lastEventTime, n - 1);
      SteadyHolds(next, w, gap / 2, n - 1);
    }
  }

  /** With weights of at most w and gaps of at least five seconds the level of a new user stays below `limit` exactly if
      2 * w - 1 does: 37 is the largest weight that never earns a warning, 50 the largest that never reaches a kill. */
  lemma BoundIsExact(w: nat, limit: nat)
    requires 1 <= w < 0x4000_0000
    ensures (forall hits :: Spaced(0, hits, w) ==> CountedAll(FRESH, hits).rateFloodValue < limit)
       <==> 2 * w - 1 < limit
  {
    var n := 2 * w - 1;
    SteadyIsSpaced(w, 0, n);
    SteadyHolds(FRESH, w, n, n);
    assert CountedAll(FRESH, Steady(w, 0, n)).rateFloodValue == 2 * w - 1;
    forall hits | Spaced(0, hits, w)
      ensures CountedAll(FRESH, hits).rateFloodValue <= 2 * w - 1
    {
      DecayBound(FRESH, hits, w);
    }
  }

  // ---- warnings before kills, over whole runs

  datatype Person = Person(nick: string, id: nat, rate: Rate)

  // What happened to whom.
  datatype Note = WarnedAt(id: nat, level: int) | KilledAt(id: nat)

  // The users online, the newest first.
  datatype State = State(users: seq<Person>, next: nat, log: seq<Note>)

  // getNickData
  function FindNick(users: seq<Person>, nick: string): (i: Option<nat>)
    ensures i.Some? ==> i.value < |users| && SameName(users[i.value].nick, nick)
    ensures i.None? ==> forall k :: 0 <= k < |users| ==> !SameName(users[k].nick, nick)
  {
    if users == [] then None
    else if SameName(users[0].nick, nick) then Some(0)
    else match FindNick(users[1..], nick)
         case None => None
         case Some(i) => Some(i + 1)
  }

  datatype Event =
    | Connect(nick: string)
    | ChangeNick(from: string, to: string)
    | Quit(nick: string)
    | AddFlood(nick: string, weight: int, now: int, root: bool, ignored: bool)

  // addFlood on a person: what becomes of the level, and what is noted.
  datatype Verdict = Quiet | Warning | Kill

  // The warning threshold is .75 * MAXFLOODLEVEL.
  function Judge(r: Rate, ignored: bool): Verdict {
    if r.warningsSent > 0 && Lev(r) >= MAXFLOODLEVEL then Kill
    else if 4 * Lev(r) >= 3 * MAXFLOODLEVEL && !ignored then Warning
    else Quiet
  }

  function Flooded(s: State, i: nat, r: Rate, ignored: bool): State
    requires i < |s.users|
  {
    var p := s.users[i];
    match Judge(r, ignored)
    case Kill => s.(users := L.RemoveAt(s.users, i), log := s.log + [KilledAt(p.id)])
    case Warning => s.(users := s.users[i := p.(rate := WarnedOnce(r))], log := s.log + [WarnedAt(p.id, Lev(r))])
    case Quiet => s.(users := s.users[i := p.(rate := r)])
  }

  // addNick puts a record at the head; delNick takes the one it is given.
  function Step(s: State, e: Event): State {
    match e
    case Connect(nick) => s.(users := [Person(nick, s.next, FRESH)] + s.users, next := s.next + 1)
    case ChangeNick(from, to) =>
      (match FindNick(s.users, from)
       case None => s
       case Some(i) => s.(users := [s.users[i].(nick := to)] + L.RemoveAt(s.users, i)))
    case Quit(nick) =>
      (match FindNick(s.users, nick)
       case None => s
       case Some(i) => s.(users := L.RemoveAt(s.users, i)))
    case AddFlood(nick, weight, now, root, ignored) =>
      match FindNick(s.users, nick)
      case None => s
      case Some(i) => if root then s else Flooded(s, i, Counted(s.users[i].rate, weight, now), ignored)
  }

  function Run(s: State, events: seq<Event>): State
    decreases |events|
  {
    if events == [] then s else Run(Step(s, events[0]), events[1..])
  }

  predicate WarnedBefore(log: seq<Note>, k: nat, id: nat)
    requires k <= |log|
  {
    exists j :: 0 <= j < k && log[j].WarnedAt? && log[j].id == id && 4 * log[j].level >= 3 * MAXFLOODLEVEL
  }

  // No two people online share an id, and no id is given again.
  ghost predicate OwnIds(s: State) {
    && (forall n :: 0 <= n < |s.users| ==> s.users[n].id < s.next)
    && (forall m, n :: 0 <= m < n < |s.users| ==> s.users[m].id != s.users[n].id)
  }

  // Whoever carries a warning was warned, and so was whoever has been killed, before it.
  ghost predicate Sound(s: State) {
    && (forall n :: 0 <= n < |s.users| && s.users[n].rate.warningsSent > 0 ==>
          WarnedBefore(s.log, |s.log|, s.users[n].id))
    && (forall k :: 0 <= k < |s.log| && s.log[k].KilledAt? ==> WarnedBefore(s.log, k, s.log[k].id))
  }

  // Whoever is left when record i goes was there before.
  lemma Left(users: seq<Person>, i: nat, n: nat)
    requires i < |users| && n < |users| - 1
    ensures L.RemoveAt(users, i)[n] == users[if n < i then n else n + 1]
  {
  }

  lemma RemovedIds(s: State, i: nat)
    requires OwnIds(s) && i < |s.users|
    ensures OwnIds(s.(users := L.RemoveAt(s.users, i)))
    ensures forall n :: 0 <= n < |s.users| - 1 ==> L.RemoveAt(s.users, i)[n].id != s.users[i].id
  {
    forall n | 0 <= n < |s.users| - 1
      ensures L.RemoveAt(s.users, i)[n] == s.users[if n < i then n else n + 1]
    {
      Left(s.users, i, n);
    }
  }

  lemma RenamedIds(s: State, i: nat, to: string)
    requires OwnIds(s) && i < |s.users|
    ensures OwnIds(s.(users := [s.users[i].(nick := to)] + L.RemoveAt(s.users, i)))
  {
    RemovedIds(s, i);
  }

  lemma FloodedIds(s: State, i: nat, r: Rate, ignored: bool)
    requires OwnIds(s) && i < |s.users|
    ensures OwnIds(Flooded(s, i, r, ignored))
  {
    RemovedIds(s, i);
  }

  lemma StepKeepsIds(s: State, e: Event)
    requires OwnIds(s)
    ensures OwnIds(Step(s, e))
  {
    match e
    case Connect(_) =>
    case ChangeNick(from, to) =>
      var i := FindNick(s.users, from);
      if i.Some? { RenamedIds(s, i.value, to); }
    case Quit(nick) =>
      var i := FindNick(s.users, nick);
      if i.Some? { RemovedIds(s, i.value); }
    case AddFlood(nick, weight, now, root, ignored) =>
      var i := FindNick(s.users, nick);
      if i.Some? && !root { FloodedIds(s, i.value, Counted(s.users[i.value].rate, weight, now), ignored); }
  }

  lemma {:induction false} IdsStayOwn(s: State, events: seq<Event>)
    requires OwnIds(s)
    ensures OwnIds(Run(s, events))
    decreases |events|
  {
    if events != [] {
      StepKeepsIds(s, events[0]);
      IdsStayOwn(Step(s, events[0]), events[1..]);
    }
  }

  lemma LogGrows(log: seq<Note>, more: Note, k: nat, id: nat)
    requires k <= |log| && WarnedBefore(log, k, id)
    ensures WarnedBefore(log + [more], k, id) && WarnedBefore(log + [more], |log| + 1, id)
  {
    var j :| 0 <= j < k && log[j].WarnedAt? && log[j].id == id && 4 * log[j].level >= 3 * MAXFLOODLEVEL;
    assert (log + [more])[j] == log[j];
  }

  lemma RemovedIsSound(s: State, i: nat)
    requires Sound(s) && i < |s.users|
    ensures Sound(s.(users := L.RemoveAt(s.users, i)))
  {
    forall n | 0 <= n < |s.users| - 1
      ensures L.RemoveAt(s.users, i)[n] == s.users[if n < i then n else n + 1]
    {
      Left(s.users, i, n);
    }
  }

  lemma StepIsSound(s: State, e: Event)
    requires Sound(s)
    ensures Sound(Step(s, e))
  {
    match e
    case Connect(_) =>
    case ChangeNick(from, _) =>
      var i := FindNick(s.users, from);
      if i.Some? { RemovedIsSound(s, i.value); }
    case Quit(nick) =>
      var i := FindNick(s.users, nick);
      if i.Some? { RemovedIsSound(s, i.value); }
    case AddFlood(nick, weight, now, root, ignored) =>
      var i := FindNick(s.users, nick);
      if i.Some? && !root {
        FloodedIsSound(s, i.value, Counted(s.users[i.value].rate, weight, now), ignored);
      }
  }

  lemma NotedIsSound(s: State, note: Note)
    requires Sound(s) && (note.KilledAt? ==> WarnedBefore(s.log, |s.log|, note.id))
    ensures Sound(s.(log := s.log + [note]))
  {
    var log := s.log + [note];
    forall n | 0 <= n < |s.users| && s.users[n].rate.warningsSent > 0
      ensures WarnedBefore(log, |log|, s.users[n].id)
    {
      LogGrows(s.log, note, |s.log|, s.users[n].id);
    }
    forall k | 0 <= k < |log| && log[k].KilledAt?
      ensures WarnedBefore(log, k, log[k].id)
    {
      LogGrows(s.log, note, if k < |s.log| then k else |s.log|, log[k].id);
    }
  }

  lemma RatedIsSound(s: State, i: nat, p: Person)
    requires Sound(s) && i < |s.users| && p.id == s.users[i].id
    requires p.rate.warningsSent > 0 ==> WarnedBefore(s.log, |s.log|, p.id)
    ensures Sound(s.(users := s.users[i := p]))
  {
  }

  lemma FloodedIsSound(s: State, i: nat, r: Rate, ignored: bool)
    requires Sound(s) && i < |s.users| && r.warningsSent == s.users[i].rate.warningsSent
    ensures Sound(Flooded(s, i, r, ignored))
  {
    var p := s.users[i];
    match Judge(r, ignored)
    case Kill =>
      NotedIsSound(s, KilledAt(p.id));
      RemovedIsSound(s.(log := s.log + [KilledAt(p.id)]), i);
    case Warning =>
      var t := s.(log := s.log + [WarnedAt(p.id, Lev(r))]);
      NotedIsSound(s, WarnedAt(p.id, Lev(r)));
      assert t.log[|s.log|] == WarnedAt(p.id, Lev(r));
      RatedIsSound(t, i, p.(rate := WarnedOnce(r)));
    case Quiet => RatedIsSound(s, i, p.(rate := r));
  }

  /** In every run, nick changes included, addFlood removes a user only after it has warned the same person at 75% of
      the limit or more. */
  lemma {:induction false} KillsFollowWarnings(s: State, events: seq<Event>)
    requires Sound(s)
    ensures var log := Run(s, events).log;
            forall k :: 0 <= k < |log| && log[k].KilledAt? ==> WarnedBefore(log, k, log[k].id)
    decreases |events|
  {
    if events == [] {
      assert Run(s, events).log == s.log;
    } else {
      StepIsSound(s, events[0]);
      KillsFollowWarnings(Step(s, events[0]), events[1..]);
      assert Run(s, events).log == Run(Step(s, events[0]), events[1..]).log;
    }
  }

  const START := State([], 0, [])

  /** So it is from a network without users on, where ids are also never shared. */
  lemma KillsFollowWarningsFromStart(events: seq<Event>)
    ensures var s := Run(START, events);
            OwnIds(s) && forall k :: 0 <= k < |s.log| && s.log[k].KilledAt? ==> WarnedBefore(s.log, k, s.log[k].id)
  {
    IdsStayOwn(START, events);
    KillsFollowWarnings(START, events);
  }

  // ---- who is removed

  // The sum of the weights.
  function Sum(hits: seq<Hit>): int
    decreases |hits|
  {
    if hits == [] then 0 else hits[0].weight + Sum(hits[1..])
  }

  // Weights that are not negative, each within five seconds of the one before.
  predicate Burst(last: int, hits: seq<Hit>)
    decreases |hits|
  {
    hits == [] || (0 <= hits[0].weight && hits[0].now < last + 5 && Burst(hits[0].now, hits[1..]))
  }

  function Floods(nick: string, hits: seq<Hit>, ignored: bool): (events: seq<Event>)
    ensures |events| == |hits|
    decreases |hits|
  {
    if hits == [] then []
    else [Event.AddFlood(nick, hits[0].weight, hits[0].now, false, ignored)] + Floods(nick, hits[1..], ignored)
  }

  ghost predicate OnlyOne(users: seq<Person>, nick: string, i: nat) {
    && i < |users| && SameName(users[i].nick, nick)
    && forall k :: 0 <= k < |users| && k != i ==> !SameName(users[k].nick, nick)
  }

  lemma FindsOnly(users: seq<Person>, nick: string, i: nat)
    requires OnlyOne(users, nick, i)
    ensures FindNick(users, nick) == Some(i)
    ensures FindNick(L.RemoveAt(users, i), nick) == None
  {
    var j := FindNick(users, nick);
    assert j == Some(i);
    var left := L.RemoveAt(users, i);
    forall n | 0 <= n < |left|
      ensures !SameName(left[n].nick, nick)
    {
      Left(users, i, n);
    }
  }

  // Nothing happens to who is not there.
  lemma {:induction false} FloodsOnNobody(s: State, nick: string, hits: seq<Hit>, ignored: bool)
    requires FindNick(s.users, nick) == None
    ensures Run(s, Floods(nick, hits, ignored)) == s
    decreases |hits|
  {
    if hits != [] {
      var events := Floods(nick, hits, ignored);
      assert events[1..] == Floods(nick, hits[1..], ignored);
      FloodsOnNobody(s, nick, hits[1..], ignored);
    }
  }

  lemma {:induction false} SumSplit(hits: seq<Hit>)
    requires hits != []
    ensures Sum(hits) == Sum(hits[..|hits| - 1]) + hits[|hits| - 1].weight
    decreases |hits|
  {
    if |hits| > 1 {
      SumSplit(hits[1..]);
      assert hits[..|hits| - 1][1..] == hits[1..][..|hits| - 2];
      assert hits[1..][|hits| - 2] == hits[|hits| - 1];
    }
  }

  lemma {:induction false} BurstSums(last: int, hits: seq<Hit>)
    requires Burst(last, hits)
    ensures Sum(hits) >= 0
    ensures hits != [] ==> 0 <= Sum(hits[..|hits| - 1]) <= Sum(hits)
    decreases |hits|
  {
    if hits != [] {
      BurstSums(hits[0].now, hits[1..]);
      SumSplit(hits);
      if |hits| > 1 {
        assert hits[..|hits| - 1][1..] == hits[1..][..|hits| - 2];
      }
    }
  }

  // At the end of a burst from level v on: a level of 100, with a warning before the last event.
  predicate Earned(v: int, warned: bool, hits: seq<Hit>, ignored: bool) {
    && hits != [] && v + Sum(hits) >= 100
    && (warned || (!ignored && |hits| > 1 && v + Sum(hits[..|hits| - 1]) >= 75))
  }

  // The first event of a burst: a kill decides it, a warning or none moves v and `warned` on.
  lemma EarnedStep(v: int, warned: bool, hits: seq<Hit>, ignored: bool, last: int)
    requires hits != [] && Burst(last, hits)
    ensures var v1 := v + hits[0].weight;
            Earned(v, warned, hits, ignored)
            == ((warned && v1 >= 100) || Earned(v1, warned || (v1 >= 75 && !ignored), hits[1..], ignored))
  {
    BurstSums(hits[0].now, hits[1..]);
    if |hits| > 1 {
      assert hits[..|hits| - 1][1..] == hits[1..][..|hits| - 2];
    }
  }

  lemma CountedClose(r: Rate, h: Hit)
    requires h.weight >= 0 && r.rateFloodValue + h.weight <= INT_MAX
    requires r.rateFloodValue == 0 || h.now < r.lastEventTime + 5
    ensures var c := Counted(r, h.weight, h.now);
            Lev(c) == r.rateFloodValue + h.weight == c.rateFloodValue && c.lastEventTime == h.now
            && c.warningsSent == r.warningsSent
  {
  }

  // addFlood on the only user of that nick.
  lemma OneFlood(s: State, nick: string, i: nat, h: Hit, ignored: bool)
    requires OnlyOne(s.users, nick, i)
    requires h.weight >= 0 && s.users[i].rate.rateFloodValue + h.weight <= INT_MAX
    requires s.users[i].rate.rateFloodValue == 0 || h.now < s.users[i].rate.lastEventTime + 5
    ensures var t, r := Step(s, Event.AddFlood(nick, h.weight, h.now, false, ignored)), s.users[i].rate;
            var v, warned := r.rateFloodValue + h.weight, r.warningsSent > 0;
            if warned && v >= 100 then FindNick(t.users, nick) == None
            else
              && OnlyOne(t.users, nick, i) && t.users[i].rate.rateFloodValue == v
              && t.users[i].rate.lastEventTime == h.now
              && (t.users[i].rate.warningsSent > 0 <==> warned || (v >= 75 && !ignored))
  {
    FindsOnly(s.users, nick, i);
    CountedClose(s.users[i].rate, h);
  }

  lemma {:induction false} BurstFrom(s: State, nick: string, i: nat, hits: seq<Hit>, ignored: bool, last: int)
    requires OnlyOne(s.users, nick, i) && Burst(last, hits)
    requires last == s.users[i].rate.lastEventTime || s.users[i].rate.rateFloodValue == 0
    requires s.users[i].rate.rateFloodValue + Sum(hits) <= INT_MAX
    ensures var r := s.users[i].rate;
            FindNick(Run(s, Floods(nick, hits, ignored)).users, nick) == None
            <==> Earned(r.rateFloodValue, r.warningsSent > 0, hits, ignored)
    decreases |hits|
  {
    if hits == [] {
      FindsOnly(s.users, nick, i);
    } else {
      var r, events := s.users[i].rate, Floods(nick, hits, ignored);
      var t := Step(s, events[0]);
      assert events[1..] == Floods(nick, hits[1..], ignored);
      BurstSums(hits[0].now, hits[1..]);
      EarnedStep(r.rateFloodValue, r.warningsSent > 0, hits, ignored, last);
      OneFlood(s, nick, i, hits[0], ignored);
      if r.warningsSent > 0 && r.rateFloodValue + hits[0].weight >= 100 {
        FloodsOnNobody(t, nick, hits[1..], ignored);
      } else {
        BurstFrom(t, nick, i, hits[1..], ignored, hits[0].now);
      }
    }
  }

  /** A user at level 0 without warnings, hit by weights less than five seconds apart, is removed exactly if there are
      two or more, they sum up to 100, all but the last to 75, and addFlood does not ignore the user; one who carries a
      warning exactly if they sum up to 100. */
  lemma BurstKillsIff(s: State, nick: string, i: nat, hits: seq<Hit>, ignored: bool)
    requires OnlyOne(s.users, nick, i) && s.users[i].rate.rateFloodValue == 0
    requires hits != [] ==> Burst(hits[0].now, hits)
    requires Sum(hits) <= INT_MAX
    ensures FindNick(Run(s, Floods(nick, hits, ignored)).users, nick) == None
       <==> (&& hits != [] && Sum(hits) >= 100
             && (s.users[i].rate.warningsSent > 0
                 || (!ignored && |hits| > 1 && Sum(hits[..|hits| - 1]) >= 75)))
  {
    BurstFrom(s, nick, i, hits, ignored, if hits == [] then 0 else hits[0].now);
  }

  // Somebody with this id and level is online.
  ghost predicate HasRate(users: seq<Person>, id: nat, r: Rate) {
    exists i :: 0 <= i < |users| && users[i].id == id && users[i].rate == r
  }

  /** A nick change sheds no flood level: everybody online before it is online after it, with the level and the warnings
      they had, and nobody else; a sign-on adds one person at level 0 and a quit changes nobody's level. */
  lemma RatesFollowPeople(s: State, e: Event, id: nat, r: Rate)
    requires !e.AddFlood?
    ensures match e
            case ChangeNick(_, _) => HasRate(Step(s, e).users, id, r) <==> HasRate(s.users, id, r)
            case Connect(_) =>
              HasRate(Step(s, e).users, id, r) <==> HasRate(s.users, id, r) || (id == s.next && r == FRESH)
            case _ => HasRate(Step(s, e).users, id, r) ==> HasRate(s.users, id, r)
  {
    match e
    case Connect(nick) => HeadRate(Person(nick, s.next, FRESH), s.users, id, r);
    case ChangeNick(from, to) =>
      var i := FindNick(s.users, from);
      if i.Some? {
        HeadRate(s.users[i.value].(nick := to), L.RemoveAt(s.users, i.value), id, r);
        RestRate(s.users, i.value, id, r);
      }
    case Quit(nick) =>
      var i := FindNick(s.users, nick);
      if i.Some? {
        RestRate(s.users, i.value, id, r);
      }
  }

  lemma HeadRate(p: Person, users: seq<Person>, id: nat, r: Rate)
    ensures HasRate([p] + users, id, r) <==> (p.id == id && p.rate == r) || HasRate(users, id, r)
  {
    var all := [p] + users;
    if p.id == id && p.rate == r {
      assert all[0].id == id && all[0].rate == r;
    }
    if i :| 0 <= i < |users| && users[i].id == id && users[i].rate == r {
      assert all[i + 1] == users[i];
    }
  }

  lemma RestRate(users: seq<Person>, k: nat, id: nat, r: Rate)
    requires k < |users|
    ensures HasRate(users, id, r)
       <==> (users[k].id == id && users[k].rate == r) || HasRate(L.RemoveAt(users, k), id, r)
  {
    var left := L.RemoveAt(users, k);
    if i :| 0 <= i < |users| && i != k && users[i].id == id && users[i].rate == r {
      assert left[if i < k then i else i - 1] == users[i];
    }
    if n :| 0 <= n < |left| && left[n].id == id && left[n].rate == r {
      Left(users, k, n);
    }
  }

  // ---- nickserv.c

  class RateInfo {
    var lastEventTime: int
    var rateFloodValue: UInt
    var numOfEvents: UInt
    var warningsSent: nat

    constructor ()
      ensures Get() == FRESH
    {
      lastEventTime, rateFloodValue, numOfEvents, warningsSent := 0, 0, 0, 0;
    }

    // The assignment of one RateInfo to another.
    constructor Copy(r: Rate)
      ensures Get() == r
    {
      lastEventTime, rateFloodValue, numOfEvents, warningsSent :=
        r.lastEventTime, r.rateFloodValue, r.numOfEvents, r.warningsSent;
    }

    method Event(weightOfEvent: int, tNow: int)
      modifies this
      ensures Get() == Counted(old(Get()), weightOfEvent, tNow)
    {
      if tNow - lastEventTime >= FLOOD_DET_HALF_PERIOD {
        rateFloodValue := rateFloodValue / 2;
      }
      if tNow - lastEventTime <= FLOOD_DET_Z_PERIOD {
        rateFloodValue := (rateFloodValue + weightOfEvent) % 0x1_0000_0000;
      } else {
        rateFloodValue := weightOfEvent % 0x1_0000_0000;
      }
      lastEventTime := tNow;
      if numOfEvents < INT_MAX {
        numOfEvents := numOfEvents + 1;
      }
    }

    function Get(): Rate
      reads this
    {
      Rate(lastEventTime, rateFloodValue, numOfEvents, warningsSent)
    }

    method GetLev() returns (lev: int)
      ensures lev == Lev(Get())
    {
      lev := if rateFloodValue <= INT_MAX then rateFloodValue else rateFloodValue - 0x1_0000_0000;
    }

    method Warn()
      modifies this
      ensures Get() == WarnedOnce(old(Get()))
    {
      if warningsSent < UCHAR_MAX {
        warningsSent := warningsSent + 1;
      }
    }
  }

  class Online {
    var s: State

    constructor ()
      ensures s == START
    {
      s := START;
    }

    method GetNickData(nick: string) returns (i: Option<nat>)
      ensures i == FindNick(s.users, nick)
    {
      var k := 0;
      assert s.users[0..] == s.users;
      while k < |s.users|
        invariant k <= |s.users|
        invariant FindNick(s.users, nick)
               == match FindNick(s.users[k..], nick) case None => None case Some(j) => Some(k + j)
      {
        if SameName(s.users[k].nick, nick) {
          return Some(k);
        }
        assert s.users[k..][1..] == s.users[k + 1..];
        k := k + 1;
      }
      return None;
    }

    /** addFlood: true where it warns or kills. */
    method AddFlood(nick: string, addtoflood: int, timenow: int, root: bool, ignored: bool) returns (r: bool)
      modifies this
      ensures s == Step(old(s), Event.AddFlood(nick, addtoflood, timenow, root, ignored))
      ensures r <==> |s.log| > |old(s.log)|
    {
      var found := GetNickData(nick);
      if found.None? {
        return false;
      }
      if root {
        return false;
      }
      var i, tmp := found.value, s.users[found.value];
      var floodlevel := new RateInfo.Copy(tmp.rate);
      floodlevel.Event(addtoflood, timenow);
      var lev := floodlevel.GetLev();
      if floodlevel.warningsSent > 0 && lev >= MAXFLOODLEVEL {
        s := s.(users := s.users[..i] + s.users[i + 1..], log := s.log + [KilledAt(tmp.id)]);
        return true;
      } else if 4 * lev >= 3 * MAXFLOODLEVEL && !ignored {
        floodlevel.Warn();
        s := s.(users := s.users[i := tmp.(rate := floodlevel.Get())], log := s.log + [WarnedAt(tmp.id, lev)]);
        return true;
      }
      s := s.(users := s.users[i := tmp.(rate := floodlevel.Get())]);
      return false;
    }

    /** The part of changeNick that carries the flood level over: the new record gets a copy, the old one goes. */
    method ChangeNick(from: string, to: string)
      modifies this
      ensures s == Step(old(s), Event.ChangeNick(from, to))
    {
      var found := GetNickData(from);
      if found.Some? {
        var i, changeme := found.value, s.users[found.value];
        var floodlevel := new RateInfo.Copy(changeme.rate);
        var tmp := Person(to, changeme.id, floodlevel.Get());
        s := s.(users := [tmp] + (s.users[..i] + s.users[i + 1..]));
      }
    }
  }
}
