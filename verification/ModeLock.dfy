/** chanserv.c: the mode lock of a registered channel, which makeModeLockStr prints and cs_set_mlock parses. The lock
    word is the set of its bits; Value is the number they make. */
module ModeLock {
  import opened Text

  datatype Mode = I | K | L | M | N | P | S | T | H | C

  datatype Flag = Plus(mode: Mode) | Minus(mode: Mode)

  type Mask = set<Flag>

  // chanserv.h, lines 52 to 72.
  function Bit(f: Flag): nat {
    match f
    case Plus(I) => 0x1
    case Plus(K) => 0x2
    case Plus(L) => 0x4
    case Plus(M) => 0x8
    case Plus(N) => 0x10
    case Plus(P) => 0x20
    case Plus(S) => 0x40
    case Plus(T) => 0x80
    case Minus(I) => 0x100
    case Minus(K) => 0x200
    case Minus(L) => 0x400
    case Minus(M) => 0x800
    case Minus(N) => 0x1000
    case Minus(P) => 0x2000
    case Minus(S) => 0x4000
    case Minus(T) => 0x8000
    case Minus(H) => 0x10000
    case Minus(C) => 0x20000
    case Plus(H) => 0x100000
    case Plus(C) => 0x200000
  }

  function Part(m: Mask, f: Flag): nat {
    if f in m then Bit(f) else 0
  }

  function Value(m: Mask): nat {
    Part(m, Plus(I)) + Part(m, Plus(K)) + Part(m, Plus(L)) + Part(m, Plus(M)) + Part(m, Plus(N))
    + Part(m, Plus(P)) + Part(m, Plus(S)) + Part(m, Plus(T)) + Part(m, Plus(H)) + Part(m, Plus(C))
    + Part(m, Minus(I)) + Part(m, Minus(K)) + Part(m, Minus(L)) + Part(m, Minus(M)) + Part(m, Minus(N))
    + Part(m, Minus(P)) + Part(m, Minus(S)) + Part(m, Minus(T)) + Part(m, Minus(H)) + Part(m, Minus(C))
  }

  function Letter(x: Mode): char {
    match x
    case I => 'i'
    case K => 'k'
    case L => 'l'
    case M => 'm'
    case N => 'n'
    case P => 'p'
    case S => 's'
    case T => 't'
    case H => 'H'
    case C => 'c'
  }

  /** No mode is locked both on and off. */
  predicate Disjoint(m: Mask) {
    forall x: Mode :: !(Plus(x) in m && Minus(x) in m)
  }

  // ---- printing

  // The order in which makeModeLockStr tests the modes.
  const ORDER: seq<Mode> := [I, L, K, M, N, P, S, T, H, C]

  function FlagOf(on: bool, x: Mode): Flag {
    if on then Plus(x) else Minus(x)
  }

  function One(m: Mask, on: bool, x: Mode): string {
    if FlagOf(on, x) in m then [Letter(x)] else ""
  }

  // The letters of the first k modes.
  function Letters(m: Mask, on: bool, k: nat): (s: string)
    requires k <= |ORDER|
    ensures |s| <= k
    decreases k, on
  {
    if k == 0 then "" else Letters(m, on, k - 1) + One(m, on, ORDER[k - 1])
  }

  function PlusPart(m: Mask): string {
    var plus := Letters(m, true, |ORDER|);
    if plus == "" then "" else "+" + plus
  }

  function MinusPart(m: Mask): string {
    if Value(m) >= 257 then "-" + Letters(m, false, |ORDER|) else ""
  }

  function Print(m: Mask): string {
    if PlusPart(m) + MinusPart(m) == "" then "(none)" else PlusPart(m) + MinusPart(m)
  }

  // ---- parsing

  datatype Lock = Lock(mlock: Mask, limit: int, key: string)

  // The state of the loop: `params` are the arguments not yet consumed.
  datatype Parser = Parser(on: bool, reset: bool, lock: Lock, params: seq<string>)

  function Forced(m: Mask, on: bool, x: Mode): Mask {
    m + {FlagOf(on, x)} - {FlagOf(!on, x)}
  }

  // The rows of mlock_table.
  const TABLE: seq<Mode> := [I, M, N, S, P, T, H, C]

  function Lookup(c: char, k: nat): (x: Option<Mode>)
    requires k <= |TABLE|
    decreases |TABLE| - k
  {
    if k == |TABLE| then None else if Letter(TABLE[k]) == c then Some(TABLE[k]) else Lookup(c, k + 1)
  }

  const KEYLEN := 23

  // strncpyzt(key, arg, KEYLEN - 1)
  function KeyOf(arg: string): string {
    if |arg| < KEYLEN - 1 then arg else arg[..KEYLEN - 2]
  }

  function Step(p: Parser, c: char): Parser {
    if c == '=' then if p.reset then p.(on := true) else p.(reset := true, lock := p.lock.(mlock := {}))
    else if c == '+' then p.(on := true)
    else if c == '-' then p.(on := false)
    else if c == 'k' && p.on then
      if p.params == [] then p
      else p.(lock := p.lock.(mlock := Forced(p.lock.mlock, true, K), key := KeyOf(p.params[0])),
              params := p.params[1..])
    else if c == 'l' && p.on then
      if p.params == [] then p
      else p.(lock := p.lock.(mlock := Forced(p.lock.mlock, true, L), limit := Atoi(p.params[0])),
              params := p.params[1..])
    else if c == 'k' then p.(lock := p.lock.(mlock := Forced(p.lock.mlock, false, K)))
    else if c == 'l' then p.(lock := p.lock.(mlock := Forced(p.lock.mlock, false, L)))
    else match Lookup(c, 0)
         case Some(x) => p.(lock := p.lock.(mlock := Forced(p.lock.mlock, p.on, x)))
         case None => p
  }

  function Steps(p: Parser, text: string): Parser
    decreases |text|
  {
    if text == "" then p else Steps(Step(p, text[0]), text[1..])
  }

  // cs_set_mlock on the string `text` with the arguments that follow it.
  function Set(lock: Lock, text: string, params: seq<string>): Lock {
    Steps(Parser(true, false, lock, params), text).lock
  }

  lemma {:induction false} StepsAppend(p: Parser, a: string, b: string)
    ensures Steps(p, a + b) == Steps(Steps(p, a), b)
    decreases |a|
  {
    if a == "" {
      assert a + b == b;
    } else {
      assert (a + b)[0] == a[0] && (a + b)[1..] == a[1..] + b;
      StepsAppend(Step(p, a[0]), a[1..], b);
    }
  }

  // ---- disjointness over every run

  lemma StepKeepsDisjoint(p: Parser, c: char)
    requires Disjoint(p.lock.mlock)
    ensures Disjoint(Step(p, c).lock.mlock)
  {
  }

  lemma {:induction false} StepsKeepDisjoint(p: Parser, text: string)
    requires Disjoint(p.lock.mlock)
    ensures Disjoint(Steps(p, text).lock.mlock)
    decreases |text|
  {
    if text != "" {
      StepKeepsDisjoint(p, text[0]);
      StepsKeepDisjoint(Step(p, text[0]), text[1..]);
    }
  }

  // What changes the lock: registering (from 0), banishing, and the set command.
  datatype Event = Register | Banish | SetMlock(text: string, params: seq<string>)

  function After(lock: Lock, e: Event): Lock {
    match e
    case Register => lock.(mlock := {Plus(N), Plus(T), Minus(H), Minus(K)})
    case Banish => lock.(mlock := {Plus(N), Plus(T), Minus(K)})
    case SetMlock(text, params) => Set(lock, text, params)
  }

  function AfterAll(lock: Lock, events: seq<Event>): Lock
    decreases |events|
  {
    if events == [] then lock else AfterAll(After(lock, events[0]), events[1..])
  }

  lemma {:induction false} LettersBothSides(m: Mask, k: nat)
    requires k <= |ORDER| && Disjoint(m)
    ensures |Letters(m, true, k)| + |Letters(m, false, k)| <= k
    decreases k
  {
    if k > 0 {
      LettersBothSides(m, k - 1);
    }
  }

  lemma PrintFits(m: Mask)
    requires Disjoint(m)
    ensures |Print(m)| + 1 <= 13
  {
    LettersBothSides(m, |ORDER|);
  }

  /** In every run from an unset lock, no mode is locked both ways, and what makeModeLockStr writes, with its
      terminator, takes at most 13 of its 20 bytes. */
  lemma {:induction false} LockStaysDisjoint(lock: Lock, events: seq<Event>)
    requires Disjoint(lock.mlock)
    ensures Disjoint(AfterAll(lock, events).mlock)
    ensures |Print(AfterAll(lock, events).mlock)| + 1 <= 13
    decreases |events|
  {
    if events == [] {
      PrintFits(lock.mlock);
    } else {
      var next := After(lock, events[0]);
      if events[0].SetMlock? {
        StepsKeepDisjoint(Parser(true, false, lock, events[0].params), events[0].text);
      }
      LockStaysDisjoint(next, events[1..]);
    }
  }

  const BOTH_WAYS: Mask := {Plus(I), Plus(K), Plus(L), Plus(M), Plus(N), Plus(P), Plus(S), Plus(T), Plus(H), Plus(C),
    Minus(I), Minus(K), Minus(L), Minus(M), Minus(N), Minus(P), Minus(S), Minus(T), Minus(H), Minus(C)}

  lemma {:induction false} LettersFull(on: bool, k: nat)
    requires k <= |ORDER|
    ensures |Letters(BOTH_WAYS, on, k)| == k
    decreases k
  {
    if k > 0 {
      LettersFull(on, k - 1);
      assert FlagOf(on, ORDER[k - 1]) in BOTH_WAYS;
    }
  }

  /** Without disjointness the 20-byte buffer can overflow. */
  lemma OverlapOverflows()
    ensures !Disjoint(BOTH_WAYS) && |Print(BOTH_WAYS)| + 1 == 23
  {
    LettersFull(true, |ORDER|);
    LettersFull(false, |ORDER|);
    assert Plus(I) in BOTH_WAYS && Minus(I) in BOTH_WAYS;
  }

  // ---- the round trip

  // The flags of the first k modes.
  function Firsts(m: Mask, on: bool, k: nat): (s: Mask)
    requires k <= |ORDER|
    ensures forall f :: f in s ==> f in m && (f.Plus? <==> on)
    decreases k, on
  {
    if k == 0 then {}
    else Firsts(m, on, k - 1) + (if FlagOf(on, ORDER[k - 1]) in m then {FlagOf(on, ORDER[k - 1])} else {})
  }

  lemma OrderIsComplete(x: Mode)
    ensures x in ORDER
  {
    assert ORDER[0] == I && ORDER[1] == L && ORDER[2] == K && ORDER[3] == M && ORDER[4] == N;
    assert ORDER[5] == P && ORDER[6] == S && ORDER[7] == T && ORDER[8] == H && ORDER[9] == C;
  }

  lemma {:induction false} FirstsHas(m: Mask, on: bool, k: nat, i: nat)
    requires i < k <= |ORDER| && FlagOf(on, ORDER[i]) in m
    ensures FlagOf(on, ORDER[i]) in Firsts(m, on, k)
    decreases k
  {
    if i < k - 1 {
      FirstsHas(m, on, k - 1, i);
    }
  }

  lemma AllFirsts(m: Mask)
    ensures Firsts(m, true, |ORDER|) + Firsts(m, false, |ORDER|) == m
  {
    forall f | f in m
      ensures f in Firsts(m, true, |ORDER|) + Firsts(m, false, |ORDER|)
    {
      OrderIsComplete(f.mode);
      var i :| 0 <= i < |ORDER| && ORDER[i] == f.mode;
      FirstsHas(m, f.Plus?, |ORDER|, i);
    }
  }

  // How many arguments the first k plus modes consume.
  function Consumed(m: Mask, k: nat): (n: nat)
    ensures n <= 2
  {
    (if Plus(L) in m && k > 1 then 1 else 0) + (if Plus(K) in m && k > 2 then 1 else 0)
  }

  lemma LetterSteps(p: Parser, x: Mode)
    requires p.on && (x == K || x == L) ==> p.params != []
    ensures Step(p, Letter(x)).lock.mlock == Forced(p.lock.mlock, p.on, x)
    ensures Step(p, Letter(x)).on == p.on && Step(p, Letter(x)).reset == p.reset
    ensures !p.on || (x != K && x != L) ==>
              Step(p, Letter(x)) == p.(lock := p.lock.(mlock := Forced(p.lock.mlock, p.on, x)))
  {
    if x != K && x != L {
      LookupFinds(x);
    }
  }

  lemma LookupFinds(x: Mode)
    requires x != K && x != L
    ensures Lookup(Letter(x), 0) == Some(x)
  {
    var c := Letter(x);
    assert Lookup(c, 8) == None;
    assert Lookup(c, 7) == if Letter(C) == c then Some(C) else Lookup(c, 8);
    assert Lookup(c, 6) == if Letter(H) == c then Some(H) else Lookup(c, 7);
    assert Lookup(c, 5) == if Letter(T) == c then Some(T) else Lookup(c, 6);
    assert Lookup(c, 4) == if Letter(P) == c then Some(P) else Lookup(c, 5);
    assert Lookup(c, 3) == if Letter(S) == c then Some(S) else Lookup(c, 4);
    assert Lookup(c, 2) == if Letter(N) == c then Some(N) else Lookup(c, 3);
    assert Lookup(c, 1) == if Letter(M) == c then Some(M) else Lookup(c, 2);
    assert Lookup(c, 0) == if Letter(I) == c then Some(I) else Lookup(c, 1);
  }

  // The lock after the first k plus letters, read from an empty one.
  function PlusLock(m: Mask, k: nat, lock: Lock, params: seq<string>): Lock
    requires k <= |ORDER| && |params| >= Consumed(m, |ORDER|)
  {
    Lock(Firsts(m, true, k),
         if Plus(L) in m && k > 1 then Atoi(params[0]) else lock.limit,
         if Plus(K) in m && k > 2 then KeyOf(params[Consumed(m, 2)]) else lock.key)
  }

  lemma {:induction false} PlusSteps(p: Parser, m: Mask, k: nat)
    requires k <= |ORDER| && p.on && p.lock.mlock == {} && |p.params| >= Consumed(m, |ORDER|)
    ensures Steps(p, Letters(m, true, k)) ==
            p.(lock := PlusLock(m, k, p.lock, p.params), params := p.params[Consumed(m, k)..])
    decreases k
  {
    if k > 0 {
      PlusSteps(p, m, k - 1);
      StepsAppend(p, Letters(m, true, k - 1), One(m, true, ORDER[k - 1]));
      PlusStep(p, m, k);
    } else {
      assert p.params[0..] == p.params;
    }
  }

  lemma OrderIndex(k: nat)
    requires 0 < k <= |ORDER|
    ensures (ORDER[k - 1] == L <==> k == 2) && (ORDER[k - 1] == K <==> k == 3)
  {
  }

  lemma PlusStep(p: Parser, m: Mask, k: nat)
    requires 0 < k <= |ORDER| && |p.params| >= Consumed(m, |ORDER|)
    requires p.on
    ensures var q := p.(lock := PlusLock(m, k - 1, p.lock, p.params), params := p.params[Consumed(m, k - 1)..]);
            Steps(q, One(m, true, ORDER[k - 1])) ==
            p.(lock := PlusLock(m, k, p.lock, p.params), params := p.params[Consumed(m, k)..])
  {
    var x := ORDER[k - 1];
    OrderIndex(k);
    if Plus(x) in m {
      var q := p.(lock := PlusLock(m, k - 1, p.lock, p.params), params := p.params[Consumed(m, k - 1)..]);
      OneLetter(q, x);
      assert Forced(Firsts(m, true, k - 1), true, x) == Firsts(m, true, k);
      if x == K || x == L {
        assert q.params[0] == p.params[Consumed(m, k - 1)] && q.params[1..] == p.params[Consumed(m, k)..];
      } else {
        LetterSteps(q, x);
      }
    }
  }

  lemma OneLetter(p: Parser, x: Mode)
    ensures Steps(p, [Letter(x)]) == Step(p, Letter(x))
  {
    assert [Letter(x)][1..] == "";
  }

  lemma {:induction false} MinusSteps(p: Parser, m: Mask, k: nat)
    requires k <= |ORDER| && !p.on && Disjoint(m) && p.lock.mlock == Firsts(m, true, |ORDER|)
    ensures Steps(p, Letters(m, false, k)) ==
            p.(lock := p.lock.(mlock := Firsts(m, true, |ORDER|) + Firsts(m, false, k)))
    decreases k
  {
    if k > 0 {
      MinusSteps(p, m, k - 1);
      StepsAppend(p, Letters(m, false, k - 1), One(m, false, ORDER[k - 1]));
      MinusStep(p, m, k);
    }
  }

  lemma MinusStep(p: Parser, m: Mask, k: nat)
    requires 0 < k <= |ORDER| && !p.on && Disjoint(m)
    ensures var plus := Firsts(m, true, |ORDER|);
            Steps(p.(lock := p.lock.(mlock := plus + Firsts(m, false, k - 1))), One(m, false, ORDER[k - 1])) ==
            p.(lock := p.lock.(mlock := plus + Firsts(m, false, k)))
  {
    var x, plus := ORDER[k - 1], Firsts(m, true, |ORDER|);
    var q := p.(lock := p.lock.(mlock := plus + Firsts(m, false, k - 1)));
    if Minus(x) in m {
      OneLetter(q, x);
      LetterSteps(q, x);
      assert Forced(q.lock.mlock, false, x) == plus + Firsts(m, false, k);
    }
  }

  lemma {:induction false} LettersEmpty(m: Mask, on: bool, k: nat)
    requires k <= |ORDER|
    ensures Letters(m, on, k) == "" <==> Firsts(m, on, k) == {}
    decreases k
  {
    if k > 0 {
      LettersEmpty(m, on, k - 1);
    }
  }

  // The threshold 257 misses exactly one lock that has a minus bit.
  lemma MinusPrinted(m: Mask)
    ensures Value(m) < 257 && (exists x: Mode :: Minus(x) in m) <==> m == {Minus(I)}
  {
    if m == {Minus(I)} {
      assert Minus(I) in m;
    }
    if x: Mode :| Minus(x) in m {
      if Value(m) < 257 {
        assert x == I;
        forall f | f in m
          ensures f == Minus(I)
        {
          assert Part(m, f) == Bit(f) && Part(m, Minus(I)) == 256;
          match f.mode
          case I => case K => case L => case M => case N => case P => case S => case T => case H => case C =>
        }
        assert m == {Minus(I)};
      }
    }
  }

  // The lock a printed mask describes.
  function Described(m: Mask, lock: Lock, params: seq<string>): Lock
    requires |params| >= Consumed(m, |ORDER|)
  {
    Lock(m, if Plus(L) in m then Atoi(params[0]) else lock.limit,
         if Plus(K) in m then KeyOf(params[Consumed(m, 2)]) else lock.key)
  }

  lemma SetSteps(lock: Lock, text: string, params: seq<string>)
    ensures Set(lock, "=" + text, params) == Steps(Parser(true, true, lock.(mlock := {}), params), text).lock
  {
    assert ("=" + text)[1..] == text;
  }

  // Reading the plus part leaves the parser adding modes.
  lemma PlusPartSteps(p: Parser, m: Mask)
    requires p.on && p.lock.mlock == {} && |p.params| >= Consumed(m, |ORDER|)
    ensures Steps(p, PlusPart(m)) ==
            p.(lock := PlusLock(m, |ORDER|, p.lock, p.params), params := p.params[Consumed(m, |ORDER|)..])
  {
    var plus := Letters(m, true, |ORDER|);
    PlusSteps(p, m, |ORDER|);
    if plus != "" {
      assert ("+" + plus)[1..] == plus;
      assert Step(p, '+') == p;
    }
  }

  lemma MinusPartSteps(p: Parser, m: Mask)
    requires p.on && Disjoint(m) && m != {Minus(I)} && p.lock.mlock == Firsts(m, true, |ORDER|)
    ensures Steps(p, MinusPart(m)).lock == p.lock.(mlock := m)
  {
    var minus := Letters(m, false, |ORDER|);
    AllFirsts(m);
    if Value(m) >= 257 {
      assert ("-" + minus)[1..] == minus;
      MinusSteps(p.(on := false), m, |ORDER|);
    } else {
      MinusPrinted(m);
      assert Firsts(m, false, |ORDER|) == {};
    }
  }

  lemma SomethingPrinted(m: Mask)
    ensures Print(m) == "(none)" <==> m == {} || m == {Minus(I)}
    ensures Print(m) != "(none)" ==> Print(m) == PlusPart(m) + MinusPart(m)
  {
    AllFirsts(m);
    LettersEmpty(m, true, |ORDER|);
    MinusPrinted(m);
    var t := PlusPart(m) + MinusPart(m);
    if t != "" {
      assert t[0] == '+' || t[0] == '-';
      assert "(none)"[0] == '(' && t != "(none)";
    }
    if Print(m) == "(none)" && m != {} {
      var f :| f in m;
      assert f == Minus(f.mode);
    }
  }

  lemma NoneSetsN(lock: Lock, params: seq<string>)
    ensures Set(lock, "=(none)", params).mlock == {Plus(N)}
  {
    var p := Parser(true, true, lock.(mlock := {}), params);
    assert "=(none)" == "=" + "(none)";
    SetSteps(lock, "(none)", params);
    assert "(none)" == "(" + ("n" + "one)") && "one)" == "o" + ("n" + ("e" + ")"));
    LetterSteps(p, N);
    NotModes();
    var q := p.(lock := p.lock.(mlock := {Plus(N)}));
    assert Forced({}, true, N) == {Plus(N)} && Forced({Plus(N)}, true, N) == {Plus(N)};
    assert Step(p, '(') == p && Step(p, 'n') == q && Step(q, 'o') == q && Step(q, 'e') == q && Step(q, ')') == q;
    LetterSteps(q, N);
    assert Step(q, 'n') == q;
    StepsOf(p, "(none)", p); StepsOf(p, "none)", q); StepsOf(q, "one)", q);
    StepsOf(q, "ne)", q); StepsOf(q, "e)", q); StepsOf(q, ")", q);
  }

  lemma StepsOf(p: Parser, text: string, q: Parser)
    requires text != "" && Step(p, text[0]) == q
    ensures Steps(p, text) == Steps(q, text[1..])
  {
  }

  lemma NotModes()
    ensures Lookup('(', 0) == None && Lookup('o', 0) == None && Lookup('e', 0) == None && Lookup(')', 0) == None
  {
  }

  /** Setting '=' followed by what makeModeLockStr prints, with the limit and then the key as arguments, gives back
      exactly the printed lock from any earlier one, if and only if the mask is neither 0 nor MM_I alone. */
  lemma PrintParseIff(m: Mask, lock: Lock, params: seq<string>)
    requires Disjoint(m) && |params| >= Consumed(m, |ORDER|)
    ensures Set(lock, "=" + Print(m), params) == Described(m, lock, params) <==> m != {} && m != {Minus(I)}
  {
    SomethingPrinted(m);
    if m == {} || m == {Minus(I)} {
      NoneSetsN(lock, params);
      assert "=" + "(none)" == "=(none)";
      assert Plus(N) !in m && Plus(N) in Set(lock, "=(none)", params).mlock;
    } else {
      var p := Parser(true, true, lock.(mlock := {}), params);
      SetSteps(lock, Print(m), params);
      StepsAppend(p, PlusPart(m), MinusPart(m));
      PlusPartSteps(p, m);
      MinusPartSteps(Steps(p, PlusPart(m)), m);
    }
  }

  // ---- chanserv.c

  class RegChan {
    var mlock: Mask
    var limit: int
    var key: string

    ghost function TheLock(): Lock
      reads this
    {
      Lock(mlock, limit, key)
    }

    ghost predicate Valid()
      reads this
    {
      Disjoint(mlock)
    }

    /** A channel as cs_register creates it. */
    constructor Register()
      ensures Valid() && TheLock() == After(Lock({}, 0, ""), Event.Register)
    {
      limit, key := 0, "";
      mlock := {Plus(N)} + {Plus(T)} + {Minus(H)} + {Minus(K)};
    }

    /** cs_banish, on a channel it has just registered. */
    method Banish()
      modifies this`mlock
      ensures Valid() && TheLock() == After(old(TheLock()), Event.Banish)
    {
      mlock := {Plus(N), Plus(T), Minus(K)};
    }

    // p characters are written: the prefix and the letters of the first k modes.
    ghost predicate Written(modelock: array<char>, p: nat, on: bool, prefix: string, k: nat)
      reads this, modelock
    {
      && modelock.Length == 20 && |prefix| + |Letters(mlock, on, |ORDER|)| < 20 && k <= |ORDER|
      && p < 20 && modelock[..p] == prefix + Letters(mlock, on, k)
    }

    // One test of makeModeLockStr.
    method Put(modelock: array<char>, p: nat, on: bool, x: Mode, ghost prefix: string, ghost k: nat)
        returns (q: nat, ghost next: nat)
      requires Written(modelock, p, on, prefix, k) && k < |ORDER| && x == ORDER[k]
      modifies modelock
      ensures Written(modelock, q, on, prefix, next) && next == k + 1
    {
      q, next := p, k + 1;
      OneMore(mlock, on, prefix, k);
      ghost var was := modelock[..p];
      assert |was| == p && |was + One(mlock, on, x)| < 20;
      if FlagOf(on, x) in mlock {
        modelock[q] := Letter(x);
        q := q + 1;
        assert modelock[..q] == was + [Letter(x)];
      } else {
        assert was + "" == was;
      }
    }

    method PutAll(modelock: array<char>, p: nat, on: bool, ghost prefix: string) returns (q: nat)
      requires Written(modelock, p, on, prefix, 0)
      modifies modelock
      ensures Written(modelock, q, on, prefix, |ORDER|)
    {
      ghost var k;
      q, k := PutHalf(modelock, p, on, prefix);
      q, k := Put(modelock, q, on, P, prefix, k);
      q, k := Put(modelock, q, on, S, prefix, k);
      q, k := Put(modelock, q, on, T, prefix, k);
      q, k := Put(modelock, q, on, H, prefix, k);
      q, k := Put(modelock, q, on, C, prefix, k);
    }

    method PutHalf(modelock: array<char>, p: nat, on: bool, ghost prefix: string) returns (q: nat, ghost k: nat)
      requires Written(modelock, p, on, prefix, 0)
      modifies modelock
      ensures Written(modelock, q, on, prefix, k) && k == 5
    {
      q, k := Put(modelock, p, on, I, prefix, 0);
      q, k := Put(modelock, q, on, L, prefix, k);
      q, k := Put(modelock, q, on, K, prefix, k);
      q, k := Put(modelock, q, on, M, prefix, k);
      q, k := Put(modelock, q, on, N, prefix, k);
    }

    method PutPlus(modelock: array<char>) returns (p: nat)
      requires Valid() && modelock.Length == 20
      modifies modelock
      ensures p < 20 && modelock[..p] == PlusPart(mlock)
    {
      LettersBothSides(mlock, |ORDER|);
      LettersNoSign(mlock, true, |ORDER|);
      modelock[0] := '+';
      assert modelock[..1] == "+" == "+" + Letters(mlock, true, 0);
      p := PutAll(modelock, 1, true, "+");
      assert modelock[p - 1] == ("+" + Letters(mlock, true, |ORDER|))[p - 1];
      if modelock[p - 1] == '+' {
        p := 0;
      }
    }

    method PutMinus(modelock: array<char>, p: nat) returns (q: nat)
      requires Valid() && modelock.Length == 20 && p < 20 && modelock[..p] == PlusPart(mlock)
      modifies modelock
      ensures q < 13 && modelock[..q] == PlusPart(mlock) + MinusPart(mlock)
    {
      q := p;
      LettersBothSides(mlock, |ORDER|);
      if Value(mlock) >= 257 {
        ghost var plus := modelock[..p];
        modelock[p] := '-';
        q := p + 1;
        assert modelock[..q] == plus + "-" == plus + "-" + Letters(mlock, false, 0);
        q := PutAll(modelock, q, false, plus + "-");
        assert modelock[..q] == plus + ("-" + Letters(mlock, false, |ORDER|));
      }
    }

    /** makeModeLockStr: every write is inside the 20 bytes. */
    method MakeModeLockStr(modelock: array<char>) returns (p: nat)
      requires Valid() && modelock.Length == 20
      modifies modelock
      ensures p < 13 && modelock[..p] == Print(mlock) && modelock[p] == '\0'
    {
      forall i | 0 <= i < 20 {
        modelock[i] := '\0';
      }
      p := PutPlus(modelock);
      p := PutMinus(modelock, p);
      if p == 0 {
        var none := "(none)";
        forall i | 0 <= i < 6 {
          modelock[i] := none[i];
        }
        p := 6;
        assert modelock[..6] == none;
      }
      ghost var text := modelock[..p];
      modelock[p] := '\0';
      assert modelock[..p] == text;
    }

    method FindRow(c: char) returns (x: Option<Mode>)
      ensures x == Lookup(c, 0)
    {
      var j := 0;
      while j < |TABLE| && Letter(TABLE[j]) != c
        invariant j <= |TABLE| && Lookup(c, 0) == Lookup(c, j)
      {
        j := j + 1;
      }
      x := if j < |TABLE| then Some(TABLE[j]) else None;
    }

    /** The loop of cs_set_mlock over args[2]. */
    method SetMlock(args: seq<string>)
      requires Valid() && |args| >= 3
      modifies this
      ensures Valid() && TheLock() == Set(old(TheLock()), args[2], args[3..])
    {
      ghost var start := Parser(true, false, TheLock(), args[3..]);
      StepsKeepDisjoint(start, args[2]);
      var onargs, on, reset := 3, true, false;
      var text := args[2];
      assert text[0..] == text;
      for i := 0 to |text|
        invariant 3 <= onargs <= |args|
        invariant Steps(start, text) == Steps(Parser(on, reset, TheLock(), args[onargs..]), text[i..])
      {
        assert text[i..][0] == text[i] && text[i..][1..] == text[i + 1..];
        onargs, on, reset := SetOne(text[i], args, onargs, on, reset);
      }
    }

    method Force(plus: bool, x: Mode)
      modifies this`mlock
      ensures mlock == Forced(old(mlock), plus, x)
    {
      mlock := mlock + {FlagOf(plus, x)};
      mlock := mlock - {FlagOf(!plus, x)};
    }

    // The switch on one character.
    method SetOne(c: char, args: seq<string>, onargs: nat, on: bool, reset: bool)
        returns (onargs': nat, on': bool, reset': bool)
      requires 3 <= onargs <= |args|
      modifies this
      ensures 3 <= onargs' <= |args|
      ensures Parser(on', reset', TheLock(), args[onargs'..])
           == Step(Parser(on, reset, old(TheLock()), args[onargs..]), c)
    {
      onargs', on', reset' := onargs, on, reset;
      if c == '=' && !reset {
        mlock, reset' := {}, true;
      } else if c == '=' || c == '+' {
        on' := true;
      } else if c == '-' {
        on' := false;
      } else if c == 'k' {
        if !on {
          Force(false, K);
        } else if onargs < |args| {
          assert args[onargs..][1..] == args[onargs + 1..];
          key := KeyOf(args[onargs]);
          Force(true, K);
          onargs' := onargs + 1;
        }
      } else if c == 'l' {
        if !on {
          Force(false, L);
        } else if onargs < |args| {
          assert args[onargs..][1..] == args[onargs + 1..];
          limit := Atoi(args[onargs]);
          Force(true, L);
          onargs' := onargs + 1;
        }
      } else {
        var x := FindRow(c);
        if x.Some? {
          Force(on, x.value);
        }
      }
    }
  }

  lemma {:induction false} LettersGrow(m: Mask, on: bool, k: nat)
    requires k <= |ORDER|
    ensures |Letters(m, on, k)| <= |Letters(m, on, |ORDER|)|
    decreases |ORDER| - k
  {
    if k < |ORDER| {
      LettersGrow(m, on, k + 1);
    }
  }

  // What one test adds to the text, which stays within the letters of all tests.
  lemma OneMore(m: Mask, on: bool, prefix: string, k: nat)
    requires k < |ORDER|
    ensures prefix + Letters(m, on, k + 1) == prefix + Letters(m, on, k) + One(m, on, ORDER[k])
    ensures |prefix + Letters(m, on, k + 1)| <= |prefix| + |Letters(m, on, |ORDER|)|
  {
    LettersGrow(m, on, k + 1);
    Assoc(prefix, Letters(m, on, k), One(m, on, ORDER[k]));
  }

  lemma {:induction false} LettersNoSign(m: Mask, on: bool, k: nat)
    requires k <= |ORDER|
    ensures Without(Letters(m, on, k), '+')
    decreases k
  {
    if k > 0 {
      LettersNoSign(m, on, k - 1);
    }
  }
}
