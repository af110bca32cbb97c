/** nickserv.c: the countdown that takes a protected nick away from a user who does not identify. A timer holds its info
    string; a run is given by the state of the network at each moment. */
module Enforcer {
  import opened Text
  import opened ChanAccess
  import ParseArgs

  const NICKWARNINT := 30

  type UInt = x: nat | x < 0x1_0000_0000

  // What %i prints of an unsigned int, and what an unsigned int holds of atoi's value.
  function PrintI(n: UInt): string {
    PrintInt(if n < 0x8000_0000 then n else n - 0x1_0000_0000)
  }

  function Unsigned(n: int): UInt {
    n % 0x1_0000_0000
  }

  lemma UnsignedPrintI(n: UInt)
    ensures Unsigned(Atoi(PrintI(n))) == n
  {
    AtoiPrintInt(if n < 0x8000_0000 then n else n - 0x1_0000_0000);
  }

  function Info(nick: string, host: string, left: UInt): string {
    nick + "@" + host + "@" + PrintI(left)
  }

  // A nick or a host as it stands in the string.
  predicate Field(s: string) {
    s != "" && Without(s, '@')
  }

  // ---- one firing

  // What killide does: nothing more, the enforcement, another timer (after a failed sanity check or not), or a call of
  // atoi on NULL.
  datatype Next = Stop | Enforce(nick: string) | Again(delay: nat, info: string, reset: bool) | Fault

  datatype Fields = Fields(nick: Option<string>, host: Option<string>, time: Option<string>)

  // The three calls of strtok; the last takes all that is left.
  function Split(info: string): Fields {
    var p := ParseArgs.NextArg(Some(info), '@');
    var q := ParseArgs.NextArg(p.rest, '@');
    Fields(p.arg, q.arg, if q.rest == Some("") then None else q.rest)
  }

  // hasValidModeR or isIdentified.
  predicate Cleared(w: World, u: User, nick: string) {
    ValidModeR(w, u) || IsIdentified(w, u, FindReg(w, nick))
  }

  function Fire(w: World, info: string): Next {
    var f := Split(info);
    if f.nick.None? then Stop
    else
      var check := FindUser(w, f.nick.value);
      if check.None? || Cleared(w, check.value, f.nick.value) then Stop
      else if f.host.Some? && check.value.host != f.host.value then Stop
      else if f.host.None? then Stop
      else if f.time.None? then Fault
      else Count(f.nick.value, f.host.value, Unsigned(Atoi(f.time.value)))
  }

  function Count(nick: string, host: string, time: UInt): Next {
    var left := if time >= NICKWARNINT then time - NICKWARNINT else NICKWARNINT;
    if time == 0 then Enforce(nick)
    else if left >= NICKWARNINT then Again(NICKWARNINT, Info(nick, host, left), time < NICKWARNINT)
    else Again(left, Info(nick, host, 0), false)
  }

  // The user is there, on the same host, and has not proved the nick to be theirs.
  predicate Stays(w: World, nick: string, host: string) {
    && FindUser(w, nick).Some?
    && !Cleared(w, FindUser(w, nick).value, nick)
    && FindUser(w, nick).value.host == host
  }

  lemma SplitInfo(nick: string, host: string, left: UInt)
    requires Field(nick) && Field(host)
    ensures Split(Info(nick, host, left)) == Fields(Some(nick), Some(host), Some(PrintI(left)))
  {
    var tail := host + ['@'] + PrintI(left);
    assert Info(nick, host, left) == nick + ['@'] + tail;
    ParseArgs.NextArgOfPrinted(nick, '@', tail);
    ParseArgs.NextArgOfPrinted(host, '@', PrintI(left));
  }

  /** A countdown timer fires to the effect of its three fields. */
  lemma FireOfInfo(w: World, nick: string, host: string, left: UInt)
    requires Field(nick) && Field(host)
    ensures Fire(w, Info(nick, host, left)) == if Stays(w, nick, host) then Count(nick, host, left) else Stop
  {
    SplitInfo(nick, host, left);
    UnsignedPrintI(left);
  }

  // ---- whole countdowns

  // killide at each moment of a run, and whether the user is then still to be enforced.
  function Killides(at: int -> World): (int, string) -> Next {
    (t, info) => Fire(at(t), info)
  }

  function Staying(at: int -> World, nick: string, host: string): int -> bool {
    t => Stays(at(t), nick, host)
  }

  // The moment of enforcement among the first `firings` firings of a timer set for t.
  function Follow(fire: (int, string) -> Next, t: int, info: string, firings: nat): Option<int>
    decreases firings
  {
    if firings == 0 then None
    else match fire(t, info)
         case Enforce(_) => Some(t)
         case Again(delay, next, _) => Follow(fire, t + delay, next, firings - 1)
         case _ => None
  }

  // What is left after a firing, and when the next one comes.
  function LeftAfter(left: UInt): (next: UInt)
    requires left >= NICKWARNINT
    ensures next < left && (next == 0 || next >= NICKWARNINT)
  {
    if left - NICKWARNINT >= NICKWARNINT then left - NICKWARNINT else 0
  }

  function DelayAfter(left: UInt): (delay: nat)
    requires left >= NICKWARNINT
  {
    if left - NICKWARNINT >= NICKWARNINT then NICKWARNINT else left - NICKWARNINT
  }

  // The moments at which a timer set for t with this much left fires, the last being the enforcement.
  function Moments(t: int, left: UInt): (ms: seq<int>)
    requires left == 0 || left >= NICKWARNINT
    ensures |ms| > 0 && ms[0] == t
    ensures ms[|ms| - 1] == t + (if left == 0 then 0 else left - NICKWARNINT)
    decreases left
  {
    if left == 0 then [t] else [t] + Moments(t + DelayAfter(left), LeftAfter(left))
  }

  // annoyNickThief: the first timer's delay and the time its string names.
  function FirstDelay(idtime: UInt): nat {
    if idtime > NICKWARNINT then NICKWARNINT else idtime
  }

  function FirstLeft(idtime: UInt): (left: UInt)
    ensures left == 0 || left > NICKWARNINT
  {
    if idtime > NICKWARNINT then idtime else 0
  }

  predicate AllOf(stays: int -> bool, ms: seq<int>)
    decreases |ms|
  {
    ms == [] || (stays(ms[0]) && AllOf(stays, ms[1..]))
  }

  /** The sanity check passes at every firing, and what is left strictly decreases. */
  lemma CountIsSane(nick: string, host: string, left: UInt)
    requires left >= NICKWARNINT
    ensures Count(nick, host, left) == Again(DelayAfter(left), Info(nick, host, LeftAfter(left)), false)
    ensures LeftAfter(left) < left && (LeftAfter(left) == 0 || LeftAfter(left) >= NICKWARNINT)
  {
  }

  function InfoOf(nick: string, host: string): UInt -> string {
    (left: UInt) => Info(nick, host, left)
  }

  // Timers with these strings count down while the user stays: the sanity check passes at every firing, and what is
  // left strictly decreases.
  ghost predicate CountsDown(fire: (int, string) -> Next, stays: int -> bool, nick: string, info: UInt -> string) {
    forall t: int, left: UInt :: left == 0 || left >= NICKWARNINT ==>
      fire(t, info(left)) == if !stays(t) then Stop
                             else if left == 0 then Enforce(nick)
                             else Again(DelayAfter(left), info(LeftAfter(left)), false)
  }

  // One firing of the countdown.
  lemma FollowStep(fire: (int, string) -> Next, stays: int -> bool, nick: string, info: UInt -> string,
                   t: int, left: UInt, firings: nat)
    requires CountsDown(fire, stays, nick, info) && (left == 0 || left >= NICKWARNINT) && firings > 0
    ensures Follow(fire, t, info(left), firings) ==
            if !stays(t) then None else if left == 0 then Some(t)
            else Follow(fire, t + DelayAfter(left), info(LeftAfter(left)), firings - 1)
  {
    assert fire(t, info(left)) == if !stays(t) then Stop else if left == 0 then Enforce(nick)
                                  else Again(DelayAfter(left), info(LeftAfter(left)), false);
  }

  // When a user is enforced by a timer set for t with this much left.
  function Due(stays: int -> bool, t: int, left: UInt): Option<int>
    requires left == 0 || left >= NICKWARNINT
    decreases left
  {
    if !stays(t) then None else if left == 0 then Some(t) else Due(stays, t + DelayAfter(left), LeftAfter(left))
  }

  lemma AllOfFirst(stays: int -> bool, t: int, more: seq<int>)
    ensures AllOf(stays, [t] + more) == (stays(t) && AllOf(stays, more))
  {
    assert ([t] + more)[1..] == more;
  }

  lemma {:induction false} DueIfAll(stays: int -> bool, t: int, left: UInt)
    requires left == 0 || left >= NICKWARNINT
    ensures Due(stays, t, left).Some? == AllOf(stays, Moments(t, left))
    decreases left
  {
    if left != 0 {
      AllOfFirst(stays, t, Moments(t + DelayAfter(left), LeftAfter(left)));
      DueIfAll(stays, t + DelayAfter(left), LeftAfter(left));
    } else {
      AllOfFirst(stays, t, []);
      assert [t] + [] == [t];
    }
  }

  lemma {:induction false} DueWhen(stays: int -> bool, t: int, left: UInt)
    requires left == 0 || left >= NICKWARNINT
    requires Due(stays, t, left).Some?
    ensures Due(stays, t, left) == Some(t + (if left == 0 then 0 else left - NICKWARNINT))
    decreases left
  {
    if left != 0 {
      DueWhen(stays, t + DelayAfter(left), LeftAfter(left));
    }
  }

  lemma {:induction false} FollowsDue(fire: (int, string) -> Next, stays: int -> bool, nick: string,
                                      info: UInt -> string, t: int, left: UInt, firings: nat)
    requires CountsDown(fire, stays, nick, info) && (left == 0 || left >= NICKWARNINT)
    requires firings >= |Moments(t, left)|
    ensures Follow(fire, t, info(left), firings) == Due(stays, t, left)
    decreases firings
  {
    FollowStep(fire, stays, nick, info, t, left, firings);
    if left != 0 {
      FollowsDue(fire, stays, nick, info, t + DelayAfter(left), LeftAfter(left), firings - 1);
    }
  }

  lemma FollowsMoments(fire: (int, string) -> Next, stays: int -> bool, nick: string,
                       info: UInt -> string, t: int, left: UInt, firings: nat)
    requires CountsDown(fire, stays, nick, info) && (left == 0 || left >= NICKWARNINT)
    requires firings >= |Moments(t, left)|
    ensures Follow(fire, t, info(left), firings) ==
            if AllOf(stays, Moments(t, left)) then Some(t + (if left == 0 then 0 else left - NICKWARNINT)) else None
  {
    FollowsDue(fire, stays, nick, info, t, left, firings);
    DueIfAll(stays, t, left);
    if Due(stays, t, left).Some? {
      DueWhen(stays, t, left);
    }
  }

  lemma CountdownIff(fire: (int, string) -> Next, stays: int -> bool, nick: string, info: UInt -> string,
                     t0: int, idtime: UInt, firings: nat)
    requires CountsDown(fire, stays, nick, info)
    requires firings >= |Moments(t0 + FirstDelay(idtime), FirstLeft(idtime))|
    ensures Follow(fire, t0 + FirstDelay(idtime), info(FirstLeft(idtime)), firings) ==
            if AllOf(stays, Moments(t0 + FirstDelay(idtime), FirstLeft(idtime))) then Some(t0 + idtime) else None
  {
    FollowsMoments(fire, stays, nick, info, t0 + FirstDelay(idtime), FirstLeft(idtime), firings);
  }

  lemma RunCountsDown(at: int -> World, nick: string, host: string)
    requires Field(nick) && Field(host)
    ensures CountsDown(Killides(at), Staying(at, nick, host), nick, InfoOf(nick, host))
  {
    forall t: int, left: UInt | left == 0 || left >= NICKWARNINT
      ensures Killides(at)(t, InfoOf(nick, host)(left))
           == if !Staying(at, nick, host)(t) then Stop
              else if left == 0 then Enforce(nick)
              else Again(DelayAfter(left), InfoOf(nick, host)(LeftAfter(left)), false)
    {
      FireOfInfo(at(t), nick, host, left);
      if left != 0 {
        CountIsSane(nick, host, left);
      }
    }
  }

  /** The user is enforced exactly idtime seconds after annoyNickThief if at every firing they are still there, on the
      same host and unidentified; otherwise never. */
  lemma EnforcedExactlyIff(at: int -> World, nick: string, host: string, t0: int, idtime: UInt, firings: nat)
    requires Field(nick) && Field(host)
    requires firings >= |Moments(t0 + FirstDelay(idtime), FirstLeft(idtime))|
    ensures Follow(Killides(at), t0 + FirstDelay(idtime), InfoOf(nick, host)(FirstLeft(idtime)), firings) ==
            if AllOf(Staying(at, nick, host), Moments(t0 + FirstDelay(idtime), FirstLeft(idtime)))
            then Some(t0 + idtime)
            else None
  {
    RunCountsDown(at, nick, host);
    CountdownIff(Killides(at), Staying(at, nick, host), nick, InfoOf(nick, host), t0, idtime, firings);
  }

  lemma {:induction false} MomentsWithin(t: int, left: UInt)
    requires left == 0 || left >= NICKWARNINT
    ensures forall i :: 0 <= i < |Moments(t, left)| ==>
              t <= Moments(t, left)[i] <= Moments(t, left)[|Moments(t, left)| - 1]
    decreases left
  {
    if left != 0 {
      MomentsWithin(t + DelayAfter(left), LeftAfter(left));
    }
  }

  lemma {:induction false} StayingThroughout(stays: int -> bool, ms: seq<int>, lo: int, hi: int)
    requires forall t :: lo <= t <= hi ==> stays(t)
    requires forall i :: 0 <= i < |ms| ==> lo <= ms[i] <= hi
    ensures AllOf(stays, ms)
    decreases |ms|
  {
    if ms != [] {
      StayingThroughout(stays, ms[1..], lo, hi);
    }
  }

  /** A user who keeps nick and host and never identifies is enforced after idtime seconds, whatever idtime is. */
  lemma StayingIsEnforced(at: int -> World, nick: string, host: string, t0: int, idtime: UInt, firings: nat)
    requires Field(nick) && Field(host)
    requires forall t :: t0 <= t <= t0 + idtime ==> Stays(at(t), nick, host)
    requires firings >= |Moments(t0 + FirstDelay(idtime), FirstLeft(idtime))|
    ensures Follow(Killides(at), t0 + FirstDelay(idtime), InfoOf(nick, host)(FirstLeft(idtime)), firings)
         == Some(t0 + idtime)
  {
    var ms := Moments(t0 + FirstDelay(idtime), FirstLeft(idtime));
    MomentsWithin(t0 + FirstDelay(idtime), FirstLeft(idtime));
    StayingThroughout(Staying(at, nick, host), ms, t0, t0 + idtime);
    EnforcedExactlyIff(at, nick, host, t0, idtime, firings);
  }

  lemma {:induction false} NotAllOf(stays: int -> bool, ms: seq<int>)
    requires ms != [] && !stays(ms[|ms| - 1])
    ensures !AllOf(stays, ms)
    decreases |ms|
  {
    if |ms| > 1 {
      NotAllOf(stays, ms[1..]);
    }
  }

  // Nobody uses the nick, or from another host, or the nick's own registration is theirs and they are identified to it
  // by level.
  predicate Settled(w: World, nick: string, host: string) {
    Lower(nick) in w.online ==>
      var u := w.online[Lower(nick)];
      || u.host != host
      || (&& u.caccess > ACC_RECOGNIZED && u.reg.Some? && u.reg.value in w.nicks && u.reg == FindReg(w, nick)
          && !w.nicks[u.reg.value].vacation && !w.nicks[u.reg.value].forceXfer)
  }

  lemma SettledIsNotStaying(w: World, nick: string, host: string)
    requires Settled(w, nick, host)
    ensures !Stays(w, nick, host)
  {
  }

  /** A user who is identified to the nick, or does not use it, or not from that host, at the moment idtime seconds
      after annoyNickThief is never enforced, whatever happened before. */
  lemma SettledIsNeverEnforced(at: int -> World, nick: string, host: string, t0: int, idtime: UInt, firings: nat)
    requires Field(nick) && Field(host) && Settled(at(t0 + idtime), nick, host)
    requires firings >= |Moments(t0 + FirstDelay(idtime), FirstLeft(idtime))|
    ensures Follow(Killides(at), t0 + FirstDelay(idtime), InfoOf(nick, host)(FirstLeft(idtime)), firings) == None
  {
    SettledIsNotStaying(at(t0 + idtime), nick, host);
    NotAllOf(Staying(at, nick, host), Moments(t0 + FirstDelay(idtime), FirstLeft(idtime)));
    EnforcedExactlyIff(at, nick, host, t0, idtime, firings);
  }

  // The nick is in use from this host, at a level short of identification, without a remote one and without +r.
  predicate Stranger(w: World, nick: string, host: string) {
    && Lower(nick) in w.online
    && var u := w.online[Lower(nick)];
       u.host == host && u.caccess <= ACC_RECOGNIZED && (u.id.nick.None? || u.id.timestamp == 0) && !u.registered
  }

  /** A user who keeps nick and host through the countdown at a level short of identification, and has neither a remote
      identification nor +r, is enforced when idtime seconds have passed. */
  lemma StrangerIsEnforced(at: int -> World, nick: string, host: string, t0: int, idtime: UInt, firings: nat)
    requires Field(nick) && Field(host)
    requires forall t :: t0 <= t <= t0 + idtime ==> Stranger(at(t), nick, host)
    requires firings >= |Moments(t0 + FirstDelay(idtime), FirstLeft(idtime))|
    ensures Follow(Killides(at), t0 + FirstDelay(idtime), InfoOf(nick, host)(FirstLeft(idtime)), firings)
         == Some(t0 + idtime)
  {
    forall t | t0 <= t <= t0 + idtime
      ensures Stays(at(t), nick, host)
    {
      assert Stranger(at(t), nick, host);
    }
    StayingIsEnforced(at, nick, host, t0, idtime, firings);
  }

  /** The timer changeNick sets on a banished nick takes nothing away: strtok passes over the empty host, so the string
      reads as the host "0" with no time. */
  lemma BanishedTimerNeverEnforces(w: World, nick: string)
    requires Field(nick)
    ensures var next := Fire(w, nick + "@" + "@" + PrintNat(0));
            next == Stop || (next == Fault && FindUser(w, nick).Some? && FindUser(w, nick).value.host == "0")
  {
    assert PrintNat(0) == "0";
    assert nick + "@" + "@" + "0" == nick + ['@'] + ("@" + "0");
    ParseArgs.NextArgOfPrinted(nick, '@', "@" + "0");
    ParseArgs.NextArgSkips('@', "0");
    assert ['@'] + "0" == "@" + "0";
    ParseArgs.NextArgOfPrinted("0", '@', "");
  }

  // ---- nickserv.c

  datatype Timer = Timer(at: int, info: string)

  class NickServ {
    const s: Services
    // The timers set and not yet fired, the nicks taken away and when, and failed sanity checks.
    var timers: seq<Timer>
    var enforced: seq<(string, int)>
    var resets: nat

    constructor (s: Services)
      ensures this.s == s && timers == [] && enforced == [] && resets == 0
    {
      this.s := s;
      timers, enforced, resets := [], [], 0;
    }

    /** annoyNickThief, on a nick that has KILL set or not. */
    method AnnoyNickThief(nick: string, host: string, nkill: bool, idtime: UInt)
      modifies this`timers
      ensures timers == old(timers) + if nkill then
                          [Timer(s.w.now + FirstDelay(idtime), Info(nick, host, FirstLeft(idtime)))] else []
    {
      if nkill {
        if idtime > NICKWARNINT {
          timers := timers + [Timer(s.w.now + NICKWARNINT, nick + "@" + host + "@" + PrintI(idtime))];
        } else {
          timers := timers + [Timer(s.w.now + idtime, nick + "@" + host + "@" + PrintI(0))];
        }
      }
    }

    // What a firing adds.
    ghost predicate Fired(next: Next, t: seq<Timer>, e: seq<(string, int)>, r: nat)
      reads this, s
    {
      match next
      case Stop => timers == t && enforced == e && resets == r
      case Enforce(nick) => timers == t && enforced == e + [(nick, s.w.now)] && resets == r
      case Again(delay, info, reset) =>
        timers == t + [Timer(s.w.now + delay, info)] && enforced == e && resets == r + if reset then 1 else 0
      case Fault => timers == t && enforced == e && resets == r
    }

    method Strtok(info: string) returns (f: Fields)
      requires Without(info, '\0')
      ensures f == Split(info)
    {
      if info == "" {
        return Fields(None, None, None);
      }
      var buffer := new char[|info| + 1](i => if 0 <= i < |info| then info[i] else '\0');
      assert buffer[..|info|] == info;
      var state := new ParseArgs.ParseState(buffer, info, '@');
      var nick := state.GetToken();
      var host := state.GetToken();
      var time := RestOf(state);
      f := Fields(nick, host, time);
    }

    method RestOf(state: ParseArgs.ParseState) returns (time: Option<string>)
      requires state.Valid()
      ensures time == if state.Rest() == Some("") then None else state.Rest()
    {
      if state.current.None? {
        return None;
      }
      var text := ParseArgs.ReadCString(state.buffer, state.current.value);
      ParseArgs.CStringIs(state.buffer[..], state.current.value, state.end - state.current.value);
      assert state.buffer[..][state.current.value..state.end] == state.buffer[state.current.value..state.end];
      time := if text == "" then None else Some(text);
    }

    /** killide; `fault` where it hands NULL to atoi. */
    method Killide(info: string) returns (fault: bool)
      requires Without(info, '\0')
      requires forall n :: n in s.w.online && s.w.online[n].reg.Some? ==> s.w.online[n].reg.value in s.w.nicks
      modifies this
      ensures fault <==> Fire(s.w, info) == Fault
      ensures Fired(Fire(s.w, info), old(timers), old(enforced), old(resets))
    {
      var f := Strtok(info);
      if f.nick.None? {
        return false;
      }
      var nick := f.nick.value;
      var check := FindUser(s.w, nick);
      if check.None? {
        return false;
      }
      var modeR, _ := s.HasValidModeR(check.value);
      if modeR || IsIdentified(s.w, check.value, FindReg(s.w, nick)) {
        return false;
      }
      if f.host.Some? {
        if check.value.host != f.host.value {
          return false;
        }
      } else {
        return false;
      }
      if f.time.None? {
        return true;
      }
      var left := Unsigned(Atoi(f.time.value));
      if left == 0 {
        enforced := enforced + [(nick, s.w.now)];
        return false;
      }
      if left >= NICKWARNINT {
        left := left - NICKWARNINT;
      } else {
        left := NICKWARNINT;
        resets := resets + 1;
      }
      if left >= NICKWARNINT {
        timers := timers + [Timer(s.w.now + NICKWARNINT, Info(nick, f.host.value, left))];
      } else {
        timers := timers + [Timer(s.w.now + left, Info(nick, f.host.value, 0))];
      }
      return false;
    }
  }
}
