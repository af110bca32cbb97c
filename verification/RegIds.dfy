/** struct.h, stuff.c: registration ids, the counter that gives them out, and their form `%X*%X` in nickserv.db. */
module RegIds {
  import opened Text

  const IDVAL_MAX := 0xFFFF

  type IdVal = x: nat | x <= IDVAL_MAX

  datatype RegId = RegId(a: IdVal, b: IdVal) {
    // operator> as struct.h has it.
    predicate Greater(x: RegId) {
      a > x.a || (a == x.a && a > x.b)
    }

    // The order it is meant to be: high half first, then low half.
    predicate Above(x: RegId) {
      a > x.a || (a == x.a && b > x.b)
    }

    function HashKey(): IdVal {
      (((a as bv16) ^ 27) as nat + b * IDVAL_MAX) % (IDVAL_MAX + 1)
    }
  }

  // ---- the counter

  // A value kept in an IdVal.
  function Narrow(x: int): IdVal {
    x % (IDVAL_MAX + 1)
  }

  // The counter after giving out its value; None where services shut down for want of ids.
  function AfterNext(top: RegId): Option<RegId> {
    if top.b < IDVAL_MAX then Some(RegId(top.a, top.b + 1))
    else if top.a < IDVAL_MAX then Some(RegId(top.a + 1, 0))
    else None
  }

  // The counter after an id was set from the database.
  function AfterDirect(top: RegId, id: RegId): RegId {
    var a := if top.a < id.a then id.a else top.a;
    if a <= id.a && top.b <= id.b then
      if top.b == IDVAL_MAX then RegId(Narrow(id.a + 1), 0) else RegId(a, Narrow(id.b + 1))
    else RegId(a, top.b)
  }

  // The low half of the counter wraps to 0 without a carry, or the high half wraps.
  predicate Overruns(top: RegId, id: RegId) {
    id.b == IDVAL_MAX && top.a <= id.a && (top.b < IDVAL_MAX || id.a == IDVAL_MAX)
  }

  // No id given so far comes again by counting up from top.
  ghost predicate AllBelow(given: seq<RegId>, top: RegId) {
    forall i :: 0 <= i < |given| ==> top.Above(given[i])
  }

  /** An id set from the database leaves the counter above every id given exactly if the counter does not overrun. */
  lemma DirectKeepsIff(given: seq<RegId>, top: RegId, id: RegId)
    requires AllBelow(given, top)
    ensures AllBelow(given + [id], AfterDirect(top, id)) <==> !Overruns(top, id)
  {
    var all := given + [id];
    assert all[|given|] == id;
    assert forall i :: 0 <= i < |given| ==> all[i] == given[i];
  }

  lemma NextKeeps(given: seq<RegId>, top: RegId)
    requires AllBelow(given, top) && AfterNext(top).Some?
    ensures AllBelow(given + [top], AfterNext(top).value)
  {
  }

  // A new registration, or one read from the database.
  datatype Given = Next | Direct(id: RegId)

  function IdOf(top: RegId, e: Given): RegId {
    if e.Next? then top else e.id
  }

  function AfterEvent(top: RegId, e: Given): Option<RegId> {
    if e.Next? then AfterNext(top) else Some(AfterDirect(top, e.id))
  }

  // The ids have not run out, and no id read makes the counter overrun.
  predicate Sound(top: RegId, events: seq<Given>)
    decreases |events|
  {
    events == [] || (AfterEvent(top, events[0]).Some? && (events[0].Direct? ==> !Overruns(top, events[0].id))
                     && Sound(AfterEvent(top, events[0]).value, events[1..]))
  }

  // The ids given in a run, one for each event, up to the end of services.
  function Ids(top: RegId, events: seq<Given>): (ids: seq<RegId>)
    ensures |ids| <= |events|
    decreases |events|
  {
    if events == [] then []
    else
      match AfterEvent(top, events[0])
      case None => [top]
      case Some(next) => [IdOf(top, events[0])] + Ids(next, events[1..])
  }

  /** In every sound run, whatever the order of new and reloaded registrations, a new one gets an id that none before it
      has. */
  lemma {:induction false} NewIdsAreFresh(given: seq<RegId>, top: RegId, events: seq<Given>, k: nat)
    requires AllBelow(given, top) && Sound(top, events) && k < |events| && events[k].Next?
    ensures k < |Ids(top, events)| && Ids(top, events)[k] !in given + Ids(top, events)[..k]
    decreases |events|
  {
    var e, id, ids := events[0], IdOf(top, events[0]), Ids(top, events);
    if k > 0 {
      if e.Next? {
        NextKeeps(given, top);
      } else {
        DirectKeepsIff(given, top, id);
      }
      var next := AfterEvent(top, e).value;
      NewIdsAreFresh(given + [id], next, events[1..], k - 1);
      assert ids[..k] == [id] + Ids(next, events[1..])[..k - 1];
      Assoc(given, [id], Ids(next, events[1..])[..k - 1]);
    } else {
      assert ids[..0] == [];
    }
  }

  lemma {:induction false} IdsOfNext(top: RegId, events: seq<Given>, k: nat)
    requires k < |events| && (forall i :: 0 <= i <= k ==> events[i].Next?) && top.b + k <= IDVAL_MAX
    ensures k < |Ids(top, events)| && Ids(top, events)[k] == RegId(top.a, top.b + k)
    decreases k
  {
    if k > 0 {
      IdsOfNext(RegId(top.a, top.b + 1), events[1..], k - 1);
    }
  }

  /** Reloading (0,1001) and (0,65535) makes the counter overrun, and the 1002nd registration after them is (0,1001)
      too. */
  lemma OverrunExample(top: RegId, first: RegId, last: RegId, later: seq<Given>)
    requires top == first == RegId(0, 1001) && last == RegId(0, IDVAL_MAX)
    requires |later| > 1001 && forall i :: 0 <= i < |later| ==> later[i].Next?
    ensures AfterDirect(AfterDirect(top, first), last) == RegId(0, 0)
    ensures |Ids(RegId(0, 0), later)| > 1001 && Ids(RegId(0, 0), later)[1001] == first
  {
    IdsOfNext(RegId(0, 0), later, 1001);
  }

  class IdCounter {
    var top: RegId

    constructor ()
      ensures top == RegId(0, 1001)
    {
      top := RegId(0, 1001);
    }

    /** RegId::SetNext; `end` where services shut down. */
    method SetNext() returns (id: RegId, end: bool)
      modifies this
      ensures id == old(top) && end == AfterNext(old(top)).None?
      ensures top == AfterNext(old(top)).GetOr(old(top))
    {
      id, end := top, false;
      if top.b == IDVAL_MAX {
        if top.a == IDVAL_MAX {
          end := true;
          return;
        }
        top := RegId(top.a + 1, 0);
      } else {
        top := top.(b := top.b + 1);
      }
    }

    /** RegId::SetDirect. */
    method SetDirect(aVal: IdVal, bVal: IdVal) returns (id: RegId)
      modifies this
      ensures id == RegId(aVal, bVal) && top == AfterDirect(old(top), id)
    {
      id := RegId(aVal, bVal);
      if top.a < aVal {
        top := top.(a := aVal);
      }
      if top.a <= aVal && top.b <= bVal {
        if top.b == IDVAL_MAX {
          top := RegId(Narrow(aVal + 1), 0);
        } else {
          top := top.(b := Narrow(bVal + 1));
        }
      }
    }
  }

  // ---- %X

  function HexChar(d: nat): (c: char)
    requires d < 16
    ensures IsHex(c) && HexValue(c) == d
  {
    (if d < 10 then '0' as int + d else 'A' as int + d - 10) as char
  }

  predicate IsHex(c: char) {
    IsDigit(c) || 'A' <= c <= 'F' || 'a' <= c <= 'f'
  }

  function HexValue(c: char): (d: nat)
    requires IsHex(c)
    ensures d < 16
  {
    if IsDigit(c) then c as int - '0' as int
    else if c <= 'F' then c as int - 'A' as int + 10
    else c as int - 'a' as int + 10
  }

  function PrintHex(n: nat): (s: string)
    ensures |s| > 0 && forall i :: 0 <= i < |s| ==> IsHex(s[i])
    ensures s[0] == '0' ==> n == 0 && |s| == 1
  {
    if n < 16 then [HexChar(n)] else PrintHex(n / 16) + [HexChar(n % 16)]
  }

  // What was scanned, and the text behind it.
  datatype Scanned = Scanned(value: int, rest: string)

  // The value of the leading hexadecimal digits of s, continuing from acc.
  function ScanDigits(s: string, acc: nat): Scanned {
    if s == "" || !IsHex(s[0]) then Scanned(acc, s) else ScanDigits(s[1..], 16 * acc + HexValue(s[0]))
  }

  // White space, a sign and 0x may come before the digits, of which there is at least one; None where nothing is
  // stored, or the value is not one of an unsigned int, where what is stored is not defined.
  function ScanHex(s: string): Option<Scanned> {
    if s != "" && IsSpace(s[0]) then ScanHex(s[1..])
    else
      var signed := s != "" && (s[0] == '-' || s[0] == '+');
      var t := if signed then s[1..] else s;
      var u := if |t| > 1 && t[0] == '0' && (t[1] == 'x' || t[1] == 'X') then t[2..] else t;
      if u == "" || !IsHex(u[0]) then None
      else
        var d := ScanDigits(u, 0);
        if d.value >= 0x1_0000_0000 then None
        else Some(d.(value := if signed && s[0] == '-' then -d.value else d.value))
  }

  // sscanf(s, "%X*%X", &av, &bv), handed on as two IdVals.
  function ScanId(s: string): Option<RegId> {
    match ScanHex(s)
    case None => None
    case Some(av) =>
      if av.rest == "" || av.rest[0] != '*' then None
      else
        match ScanHex(av.rest[1..])
        case None => None
        case Some(bv) => Some(RegId(Narrow(av.value), Narrow(bv.value)))
  }

  function PrintId(id: RegId): (s: string)
    ensures s != ""
  {
    PrintHex(id.a) + "*" + PrintHex(id.b)
  }

  lemma {:induction false} ScanDigitsSnoc(s: string, c: char, rest: string, acc: nat)
    requires IsHex(c) && (rest == "" || !IsHex(rest[0])) && forall i :: 0 <= i < |s| ==> IsHex(s[i])
    ensures ScanDigits(s + [c] + rest, acc) == Scanned(16 * ScanDigits(s, acc).value + HexValue(c), rest)
    ensures ScanDigits(s, acc).value >= 0
    decreases |s|
  {
    var t := s + [c] + rest;
    if s == "" {
      assert t[0] == c && t[1..] == rest;
    } else {
      assert t[0] == s[0] && t[1..] == s[1..] + [c] + rest;
      ScanDigitsSnoc(s[1..], c, rest, 16 * acc + HexValue(s[0]));
    }
  }

  lemma {:induction false} ScanPrinted(n: nat, rest: string)
    requires rest == "" || !IsHex(rest[0])
    ensures ScanDigits(PrintHex(n) + rest, 0) == Scanned(n, rest)
  {
    if n < 16 {
      ScanDigitsSnoc("", HexChar(n), rest, 0);
      assert "" + [HexChar(n)] + rest == PrintHex(n) + rest;
    } else {
      ScanPrinted(n / 16, "");
      assert PrintHex(n / 16) + "" == PrintHex(n / 16);
      ScanDigitsSnoc(PrintHex(n / 16), HexChar(n % 16), rest, 0);
    }
  }

  lemma ScanHexPrinted(n: nat, rest: string)
    requires n < 0x1_0000_0000 && (rest == "" || rest[0] == '*')
    ensures ScanHex(PrintHex(n) + rest) == Some(Scanned(n, rest))
  {
    ScanPrinted(n, rest);
    var s := PrintHex(n) + rest;
    assert IsHex(s[0]) && s[0] == PrintHex(n)[0];
    assert |s| > 1 && s[0] == '0' ==> s[1] == '*';
  }

  /** Every id is read back as it was printed. */
  lemma ScanPrintId(id: RegId)
    ensures ScanId(PrintId(id)) == Some(id)
  {
    var a, b := PrintHex(id.a), PrintHex(id.b);
    Assoc(a, "*", b);
    ScanHexPrinted(id.a, "*" + b);
    assert ("*" + b)[1..] == b;
    ScanHexPrinted(id.b, "");
    assert b + "" == b;
  }

  lemma PrintIdIsWord(id: RegId)
    ensures Without(PrintId(id), ' ') && Without(PrintId(id), '\n')
  {
  }
}
