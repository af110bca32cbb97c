/** passwd.c: toBase64 and fromBase64, and the password field of nickserv.db (db.c). Octets are numbers below
    256: `x >> 2`, `(x & 3) << 4` and `a | b` on disjoint bits are written `x / 4`, `x % 4 * 16` and `a + b`. */
module Base64 {
  import opened Text

  type Octet = x: nat | x < 256
  type Sextet = x: nat | x < 64

  function Range(c: char, n: nat): (s: string)
    requires c as int + n < 0x80
    ensures |s| == n && forall i :: 0 <= i < n ==> s[i] as int == c as int + i
  {
    seq(n, i requires 0 <= i < n => (c as int + i) as char)
  }

  // The 64 characters A to Z, a to z, 0 to 9, + and /.
  const MUTATIONS: string := Range('A', 26) + Range('a', 26) + Range('0', 10) + "+/"

  // Section 4 of RFC 4648, table 1.
  function Encode6(v: Sextet): (c: char)
    ensures c != '=' && c != ' '
  {
    if v < 26 then ('A' as int + v) as char
    else if v < 52 then ('a' as int + v - 26) as char
    else if v < 62 then ('0' as int + v - 52) as char
    else if v == 62 then '+'
    else '/'
  }

  // decode_table: every octet outside the alphabet, '=' among them, stands for zero.
  function Decode6(c: char): Sextet {
    if 'A' <= c <= 'Z' then c as int - 'A' as int
    else if 'a' <= c <= 'z' then c as int - 'a' as int + 26
    else if '0' <= c <= '9' then c as int - '0' as int + 52
    else if c == '+' then 62
    else if c == '/' then 63
    else 0
  }

  lemma Decode6Encode6(v: Sextet)
    ensures Decode6(Encode6(v)) == v
  {
  }

  /** The literal alphabet of both C functions is the RFC's table. */
  lemma MutationsIsAlphabet(v: Sextet)
    ensures |MUTATIONS| == 64 && MUTATIONS[v] == Encode6(v)
  {
  }

  // ---- Positional notation

  lemma MultipleAtLeast(k: int, d: nat)
    requires k >= 1
    ensures k * d >= d
  {
    assert k * d == (k - 1) * d + d;
  }

  lemma NoMultipleBetween(k: int, d: nat)
    requires -(d as int) < k * d < d
    ensures k == 0
  {
    if k >= 1 {
      MultipleAtLeast(k, d);
    } else if k <= -1 {
      MultipleAtLeast(-k, d);
    }
  }

  lemma Quotient(q: nat, r: nat, d: nat)
    requires r < d
    ensures (q * d + r) / d == q && (q * d + r) % d == r
  {
    var n := q * d + r;
    assert n == n / d * d + n % d;
    assert (n / d - q) * d == n / d * d - q * d == r - n % d;
    NoMultipleBetween(n / d - q, d);
  }

  lemma MultipleOf(n: nat, d: nat)
    requires 0 < d && 0 < n && n % d == 0
    ensures d <= n && (n - d) % d == 0
  {
    var q := n / d;
    assert n == q * d;
    assert q >= 1;
    assert n == (q - 1) * d + d;
    Quotient(q - 1, 0, d);
  }

  function Value(base: nat, ds: seq<nat>): nat {
    if ds == [] then 0 else Value(base, ds[..|ds| - 1]) * base + ds[|ds| - 1]
  }

  // The n low digits of g, most significant first.
  function Digits(base: nat, g: nat, n: nat): (ds: seq<nat>)
    requires base > 0
    ensures |ds| == n && forall i :: 0 <= i < n ==> ds[i] < base
    decreases n
  {
    if n == 0 then [] else Digits(base, g / base, n - 1) + [g % base]
  }

  /** A number's digits determine it and are determined by it. */
  lemma {:induction false} DigitsOfValue(base: nat, ds: seq<nat>)
    requires base > 0 && forall i :: 0 <= i < |ds| ==> ds[i] < base
    ensures Digits(base, Value(base, ds), |ds|) == ds
  {
    if ds != [] {
      var r := ds[..|ds| - 1];
      DigitsOfValue(base, r);
      Quotient(Value(base, r), ds[|ds| - 1], base);
    }
  }

  // ---- Block-wise codecs

  function First(n: nat, size: nat): (k: nat)
    ensures k <= n && k <= size && (k == n || k == size)
  {
    if n < size then n else size
  }

  // f on each stretch of `size` elements in turn; the last one may be shorter.
  function Blocks<A, B>(x: seq<A>, size: nat, f: seq<A> -> seq<B>): seq<B>
    decreases |x|
  {
    if |x| == 0 || size == 0 then []
    else f(x[..First(|x|, size)]) + Blocks(x[First(|x|, size)..], size, f)
  }

  lemma {:induction false} BlocksSplit<A, B>(x: seq<A>, y: seq<A>, size: nat, f: seq<A> -> seq<B>)
    requires size > 0 && |x| % size == 0
    ensures Blocks(x + y, size, f) == Blocks(x, size, f) + Blocks(y, size, f)
    decreases |x|
  {
    if |x| == 0 {
      assert x + y == y;
    } else {
      MultipleOf(|x|, size);
      assert (x + y)[..size] == x[..size] && (x + y)[size..] == x[size..] + y;
      BlocksSplit(x[size..], y, size, f);
    }
  }

  lemma OneBlock<A, B>(x: seq<A>, size: nat, f: seq<A> -> seq<B>)
    requires 0 < |x| <= size
    ensures Blocks(x, size, f) == f(x)
  {
    assert x[..|x|] == x && Blocks(x[|x|..], size, f) == [];
  }

  lemma BlocksStep<A, B>(x: seq<A>, at: nat, j: nat, size: nat, f: seq<A> -> seq<B>)
    requires size > 0 && at % size == 0 && 0 < j <= size && at + j <= |x|
    ensures Blocks(x[..at + j], size, f) == Blocks(x[..at], size, f) + f(x[at..at + j])
  {
    BlocksSplit(x[..at], x[at..at + j], size, f);
    OneBlock(x[at..at + j], size, f);
    assert x[..at + j] == x[..at] + x[at..at + j];
  }

  lemma {:induction false} BlocksLength<A, B>(x: seq<A>, f: seq<A> -> seq<B>)
    requires forall y :: |f(y)| == 4
    ensures |Blocks(x, 3, f)| == Groups(|x|) * 4
  {
    if |x| > 0 {
      BlocksLength(x[First(|x|, 3)..], f);
    }
  }

  // The groups of three of an input of n octets.
  function Groups(n: nat): nat {
    (n + 2) / 3
  }

  // ---- Section 4 of RFC 4648, written from the standard: 24-bit groups, big end first.

  // The three octets of a group; missing ones are zero.
  function Three(x: seq<Octet>): (t: seq<Octet>)
    ensures |t| == 3
  {
    seq(3, i requires 0 <= i < 3 => if i < |x| then x[i] else 0)
  }

  // A group of n octets is the four base-64 digits of its 24-bit value: n + 1 of them, and then '=' up to four.
  function RfcGroup(x: seq<Octet>): (s: string)
    ensures |s| == 4
  {
    var d := Digits(64, Value(256, Three(x)), 4);
    seq(4, i requires 0 <= i < 4 => if i <= |x| then Encode6(d[i]) else '=')
  }

  function RfcEncode(x: seq<Octet>): string {
    Blocks(x, 3, RfcGroup)
  }

  lemma RfcEncodeLength(x: seq<Octet>)
    ensures |RfcEncode(x)| == Groups(|x|) * 4
  {
    BlocksLength(x, RfcGroup);
  }

  // ---- toBase64

  // The shifts of toBase64 on three octets (missing ones are zero).
  function Shifts(t0: Octet, t1: Octet, t2: Octet): (out: seq<Sextet>)
    ensures |out| == 4
  {
    [t0 / 4, t0 % 4 * 16 + t1 / 16, t1 % 16 * 4 + t2 / 64, t2 % 64]
  }

  /** The shifts compute the four base-64 digits of the 24-bit group. */
  lemma ShiftsAreDigits(t0: Octet, t1: Octet, t2: Octet)
    ensures Shifts(t0, t1, t2) == Digits(64, Value(256, [t0, t1, t2]), 4)
  {
    var o := Shifts(t0, t1, t2);
    Value3(256, t0, t1, t2);
    Value4(64, o[0], o[1], o[2], o[3]);
    assert o == [o[0], o[1], o[2], o[3]];
    DigitsOfValue(64, o);
  }

  lemma Value3(base: nat, a: nat, b: nat, c: nat)
    ensures Value(base, [a, b, c]) == (a * base + b) * base + c
  {
    assert [a, b, c][..2] == [a, b] && [a, b][..1] == [a] && [a][..0] == [];
    assert Value(base, [a]) == Value(base, []) * base + a;
    assert Value(base, [a, b]) == Value(base, [a]) * base + b;
  }

  lemma Value4(base: nat, a: nat, b: nat, c: nat, d: nat)
    ensures Value(base, [a, b, c, d]) == ((a * base + b) * base + c) * base + d
  {
    assert [a, b, c, d][..3] == [a, b, c];
    Value3(base, a, b, c);
  }

  // The buffer size toBase64 computes before its terminator is added, in an unsigned int of 32 bits.
  function EncodeSize(left: nat): nat {
    (left * 8 / 24 * 4 + (if left * 8 % 24 != 0 then 3 else 0) + 2) % 0x1_0000_0000
  }

  lemma EncodeSizePositive(left: nat)
    ensures EncodeSize(left) >= 1
  {
    var n := left * 8 / 24 * 4 + (if left * 8 % 24 != 0 then 3 else 0) + 2;
    assert n % 4 != 0;
  }

  const ENCODE_LIMIT := 0xBFFF_FFFD

  /** The allocation, s_sz + 1 and also 32 bits wide, has room for every character toBase64 writes, terminator
      included, exactly for inputs of up to ENCODE_LIMIT octets. */
  lemma EncodeSizeCovers(left: nat)
    ensures Groups(left) * 4 + 1 <= (EncodeSize(left) + 1) % 0x1_0000_0000 <==> left <= ENCODE_LIMIT
    ensures left <= ENCODE_LIMIT ==> Groups(left) * 4 < EncodeSize(left)
  {
    EncodeSizeIs(left);
  }

  lemma EncodeSizeIs(left: nat)
    ensures left * 8 / 24 == left / 3 && (left * 8 % 24 != 0 <==> left % 3 != 0)
  {
  }

  /** The group as the standard writes it is the shifted octets through the alphabet, '=' for those past the end. */
  lemma RfcGroupIsShifts(x: seq<Octet>)
    ensures var t := Three(x); var out := Shifts(t[0], t[1], t[2]);
            forall k :: 0 <= k < 4 ==> RfcGroup(x)[k] == if k <= |x| then Encode6(out[k]) else '='
  {
    var t := Three(x);
    ShiftsAreDigits(t[0], t[1], t[2]);
    assert t == [t[0], t[1], t[2]];
  }

  method FillGroup(stream: seq<Octet>, at: nat) returns (temp: seq<Octet>, j: nat)
    requires at < |stream|
    ensures j == if |stream| - at < 3 then |stream| - at else 3
    ensures temp == Three(stream[at..at + j])
  {
    temp, j := [0, 0, 0], 0;
    var left := |stream| - at;
    while left > 0 && j < 3
      invariant 0 <= j <= 3 && |temp| == 3 && left == |stream| - at - j >= 0
      invariant forall i :: 0 <= i < j ==> temp[i] == stream[at + i]
    {
      temp := temp[j := stream[at + j]];
      j := j + 1;
      left := left - 1;
    }
    if j < 3 {
      temp := temp[2 := 0];
      if j < 2 {
        temp := temp[1 := 0];
      }
    }
  }

  // `aborted` where the assertion on s_sz fails.
  method WriteGroup(s: array<char>, p: nat, temp: seq<Octet>, j: nat, sSz: nat, ghost group: seq<Octet>)
    returns (rest: nat, aborted: bool)
    requires 0 < |group| <= 3 && temp == Three(group) && j == |group|
    requires p + sSz + 1 == s.Length && sSz >= 1
    modifies s
    ensures aborted <==> sSz <= 4
    ensures !aborted ==> rest == sSz - 4 && s[..p + 4] == old(s[..p]) + RfcGroup(group)
  {
    var out := Shifts(temp[0], temp[1], temp[2]);
    RfcGroupIsShifts(group);
    ghost var before, block := s[..p], RfcGroup(group);
    rest, aborted := sSz, false;
    for k := 0 to 4
      invariant rest == sSz - k >= 1 && !aborted
      invariant s[..p + k] == before + block[..k]
    {
      if k <= j {
        MutationsIsAlphabet(out[k]);
        s[p + k] := MUTATIONS[out[k]];
      } else {
        s[p + k] := '=';
      }
      assert s[..p + k + 1] == s[..p + k] + [block[k]];
      rest := rest - 1;
      if rest < 1 {
        aborted := true;
        return;
      }
    }
  }

  // The state of toBase64 before a group: the first `at` octets are encoded, and s_sz has gone down with each
  // character.
  ghost predicate Encoding(s: array<char>, p: nat, sSz: nat, stream: seq<Octet>, at: nat)
    reads s
  {
    && at <= |stream| && (at < |stream| ==> at % 3 == 0)
    && p + sSz + 1 == s.Length && sSz >= 1
    && sSz - 4 * Groups(|stream| - at) == EncodeSize(|stream|) - 4 * Groups(|stream|)
    && s[..p] == RfcEncode(stream[..at])
  }

  lemma GroupsStep(n: nat, j: nat)
    requires 0 < n && j == First(n, 3)
    ensures Groups(n) == 1 + Groups(n - j)
  {
  }

  method EncodeOne(s: array<char>, p: nat, sSz: nat, stream: seq<Octet>, at: nat)
    returns (rest: nat, next: nat, aborted: bool)
    requires Encoding(s, p, sSz, stream, at) && at < |stream|
    modifies s
    ensures at < next && (aborted ==> |stream| > ENCODE_LIMIT)
    ensures !aborted ==> Encoding(s, p + 4, rest, stream, next)
  {
    var temp, j := FillGroup(stream, at);
    EncodeStep(stream, at, j);
    EncodeSizeCovers(|stream|);
    rest, aborted := WriteGroup(s, p, temp, j, sSz, stream[at..at + j]);
    next := at + j;
  }

  lemma EncodeStep(stream: seq<Octet>, at: nat, j: nat)
    requires at < |stream| && at % 3 == 0 && j == First(|stream| - at, 3)
    ensures RfcEncode(stream[..at + j]) == RfcEncode(stream[..at]) + RfcGroup(stream[at..at + j])
    ensures Groups(|stream| - at) == 1 + Groups(|stream| - (at + j)) && (at + j < |stream| ==> (at + j) % 3 == 0)
  {
    BlocksStep(stream, at, j, 3, RfcGroup);
    EncodeCounts(at, |stream|, j);
  }

  lemma EncodeCounts(at: nat, n: nat, j: nat)
    requires at < n && at % 3 == 0 && j == First(n - at, 3)
    ensures Groups(n - at) == 1 + Groups(n - (at + j)) && (at + j < n ==> (at + j) % 3 == 0)
  {
    GroupsStep(n - at, j);
  }

  /** toBase64 writes the RFC's encoding and a terminator, inside its buffer; the assertion on s_sz fails exactly for
      inputs of more than ENCODE_LIMIT octets, and then too nothing is written outside. */
  method ToBase64(stream: seq<Octet>) returns (s: array<char>, ghost written: nat, aborted: bool)
    ensures fresh(s) && (aborted <==> |stream| > ENCODE_LIMIT)
    ensures !aborted ==> written == |RfcEncode(stream)| + 1 == Groups(|stream|) * 4 + 1 <= s.Length
                         && s[..written] == RfcEncode(stream) + ['\0']
  {
    EncodeSizePositive(|stream|);
    var sSz: nat := EncodeSize(|stream|);
    s := new char[sSz + 1];
    var p, at := 0, 0;
    written, aborted := 0, false;
    while at < |stream|
      invariant Encoding(s, p, sSz, stream, at) && !aborted
    {
      sSz, at, aborted := EncodeOne(s, p, sSz, stream, at);
      if aborted {
        return;
      }
      p := p + 4;
    }
    assert stream[..at] == stream;
    RfcEncodeLength(stream);
    EncodeSizeCovers(|stream|);
    s[p] := '\0';
    written := p + 1;
    assert s[..written] == s[..p] + ['\0'];
  }

  // ---- fromBase64

  // The shifts of fromBase64 on four sextets.
  function Unshifts(t0: Sextet, t1: Sextet, t2: Sextet, t3: Sextet): (out: seq<Octet>)
    ensures |out| == 3
  {
    [t0 * 4 + t1 / 16, t1 % 16 * 16 + t2 / 4, t2 % 4 * 64 + t3]
  }

  /** The inverse shifts compute the three base-256 digits of the 24 bits in four sextets. */
  lemma UnshiftsAreDigits(t0: Sextet, t1: Sextet, t2: Sextet, t3: Sextet)
    ensures Unshifts(t0, t1, t2, t3) == Digits(256, Value(64, [t0, t1, t2, t3]), 3)
  {
    var o := Unshifts(t0, t1, t2, t3);
    Value4(64, t0, t1, t2, t3);
    Value3(256, o[0], o[1], o[2]);
    assert o == [o[0], o[1], o[2]];
    DigitsOfValue(256, o);
  }

  // The sextets of a group of up to four characters; missing ones are zero.
  function Four(s: string): (t: seq<Sextet>)
    ensures |t| == 4
  {
    seq(4, i requires 0 <= i < 4 => if i < |s| then Decode6(s[i]) else 0)
  }

  // What one group of characters decodes to: two octets, and a third only from a whole group.
  function DecodeGroup(s: string): (x: seq<Octet>)
    ensures |x| == if |s| >= 4 then 3 else 2
  {
    var out := Digits(256, Value(64, Four(s)), 3);
    if |s| >= 4 then out else out[..2]
  }

  function Decode(s: string): seq<Octet> {
    Blocks(s, 4, DecodeGroup)
  }

  // s_sz of fromBase64: 3 + (int) (left / 4.0 * 3).
  function DecodeSize(left: nat): nat {
    3 + left * 3 / 4
  }

  const DECODE_LIMIT := 0xAAAA_AA97

  /** The sizes that fromBase64 computes in an int, s_sz and the s_sz + 1 + 10 it allocates, are below 2^31 exactly for
      texts of up to DECODE_LIMIT characters; and then s_sz has room for every octet. */
  lemma DecodeSizeCovers(left: nat)
    ensures DecodeSize(left) + 1 + 10 < 0x8000_0000 <==> left <= DECODE_LIMIT
    ensures SizeLeft(left) < DecodeSize(left)
  {
    var z := left * 3 / 4;
    assert 4 * z <= left * 3 < 4 * z + 4;
    assert left == left / 4 * 4 + left % 4;
  }

  // ---- decode_table, which has 255 entries

  const TABLE_SIZE := 255

  // A C string: octets, no NUL.
  predicate IsCString(s: string) {
    Without(s, '\0') && forall i :: 0 <= i < |s| ==> s[i] as int < 0x100
  }

  // Every character has its entry in decode_table.
  predicate InTable(s: string) {
    forall i :: 0 <= i < |s| ==> s[i] as int < TABLE_SIZE
  }

  /** The guard before the table is read looks at the sextet stored last and not at the character, so it always lets the
      read through: the index is inside the table exactly if the text does not hold the octet 255. */
  lemma InTableIff(s: string)
    requires IsCString(s)
    ensures InTable(s) <==> Without(s, 255 as char)
  {
    if !InTable(s) {
      var i :| 0 <= i < |s| && s[i] as int >= TABLE_SIZE;
      assert s[i] == 255 as char;
    }
  }

  // What decode_table holds when the first n characters of the alphabet have been entered.
  function Entered(c: char, n: nat): Sextet {
    if Decode6(c) < n then Decode6(c) else 0
  }

  lemma EnteredOnly(c: char, n: Sextet)
    ensures c == Encode6(n) ==> Entered(c, n + 1) == n
    ensures c != Encode6(n) ==> Entered(c, n + 1) == Entered(c, n)
  {
    Decode6Encode6(n);
  }

  ghost predicate IsTable(table: array<Sextet>)
    reads table
  {
    table.Length == TABLE_SIZE && forall i :: 0 <= i < TABLE_SIZE ==> table[i] == Decode6(i as char)
  }

  // The loops over a fresh table, which is all zeros past the 127 entries they clear.
  method BuildTable() returns (table: array<Sextet>)
    ensures fresh(table) && IsTable(table)
  {
    table := new Sextet[TABLE_SIZE](_ => 0);
    for j := 0 to 64
      invariant fresh(table)
      invariant forall i :: 0 <= i < TABLE_SIZE ==> table[i] == Entered(i as char, j)
    {
      MutationsIsAlphabet(j);
      var i := 0;
      while i < 127 && i != MUTATIONS[j] as int
        invariant 0 <= i <= MUTATIONS[j] as int < 127
      {
        i := i + 1;
      }
      ghost var was := table[..];
      table[i] := j;
      forall k | 0 <= k < TABLE_SIZE
        ensures table[k] == Entered(k as char, j + 1)
      {
        EnteredOnly(k as char, j);
        assert k != i ==> table[k] == was[k];
      }
    }
    assert forall c: char :: Entered(c, 64) == Decode6(c);
  }

  // `over` where the table would be read behind its end.
  method FillSextets(cStr: string, at: nat, table: array<Sextet>) returns (temp: seq<Sextet>, j: nat, over: bool)
    requires at < |cStr| && IsTable(table)
    ensures over ==> !InTable(cStr)
    ensures !over ==> j == First(|cStr| - at, 4) && temp == Four(cStr[at..at + j]) && InTable(cStr[at..at + j])
  {
    temp, j, over := [0, 0, 0, 0], 0, false;
    var left := |cStr| - at;
    while j < 4 && left > 0
      invariant 0 <= j <= 4 && |temp| == 4 && left == |cStr| - at - j >= 0
      invariant forall i :: 0 <= i < j ==> temp[i] == Decode6(cStr[at + i])
      invariant InTable(cStr[at..at + j])
    {
      if cStr[at + j] as int >= table.Length {
        over := true;
        return;
      }
      temp := temp[j := table[cStr[at + j] as int]];
      assert cStr[at..at + j + 1] == cStr[at..at + j] + [cStr[at + j]];
      j := j + 1;
      left := left - 1;
    }
    for k := j to 4
      invariant |temp| == 4
      invariant forall i :: 0 <= i < j ==> temp[i] == Decode6(cStr[at + i])
      invariant forall i :: j <= i < k ==> temp[i] == 0
    {
      temp := temp[k := 0];
    }
  }

  // calloc's zeros are still there from p on.
  ghost predicate ZerosFrom(s: array<Octet>, p: nat)
    reads s
  {
    forall i :: p <= i < s.Length ==> s[i] == 0
  }

  method WriteOctets(s: array<Octet>, p: nat, temp: seq<Sextet>, j: nat, sSz: int, ghost group: string)
    returns (q: nat, rest: int)
    requires 0 < |group| <= 4 && temp == Four(group) && j == |group|
    requires sSz > if j == 4 then 3 else 2
    requires p + 3 <= s.Length && ZerosFrom(s, p)
    modifies s
    ensures q == p + |DecodeGroup(group)| && rest == sSz - |DecodeGroup(group)|
    ensures s[..q] == old(s[..p]) + DecodeGroup(group) && ZerosFrom(s, q)
  {
    var out := Unshifts(temp[0], temp[1], temp[2], temp[3]);
    UnshiftsAreDigits(temp[0], temp[1], temp[2], temp[3]);
    assert temp == [temp[0], temp[1], temp[2], temp[3]];
    q, rest := p, sSz;
    if rest > 0 {
      s[q] := out[0];
      q := q + 1;
      rest := rest - 1;
    }
    if rest > 0 {
      s[q] := out[1];
      q := q + 1;
      rest := rest - 1;
    }
    if j >= 4 {
      s[q] := out[2];
      q := q + 1;
      rest := rest - 1;
    }
    assert rest > 0;
  }

  // What remains of s_sz while n characters are still to be decoded.
  function SizeLeft(n: nat): nat {
    n / 4 * 3 + (if n % 4 == 0 then 0 else 2)
  }

  // The state of fromBase64 before a group.
  ghost predicate Decoding(s: array<Octet>, p: nat, sSz: int, cStr: string, at: nat)
    reads s
  {
    && at <= |cStr| && (at < |cStr| ==> at % 4 == 0)
    && p + sSz + 11 == s.Length && sSz > SizeLeft(|cStr| - at)
    && s[..p] == Decode(cStr[..at]) && ZerosFrom(s, p)
  }

  lemma SizeLeftStep(n: nat, j: nat)
    requires 0 < n && j == First(n, 4)
    ensures SizeLeft(n) == (if j == 4 then 3 else 2) + SizeLeft(n - j)
  {
  }

  method DecodeOne(s: array<Octet>, p: nat, sSz: int, cStr: string, at: nat, table: array<Sextet>)
    returns (q: nat, rest: int, next: nat, over: bool)
    requires Decoding(s, p, sSz, cStr, at) && at < |cStr| && IsTable(table)
    modifies s
    ensures at < next && (over ==> !InTable(cStr))
    ensures !over ==> Decoding(s, q, rest, cStr, next) && InTable(cStr[at..next])
  {
    var temp, j;
    temp, j, over := FillSextets(cStr, at, table);
    if over {
      return p, sSz, at + 1, true;
    }
    DecodeStep(cStr, at, j);
    q, rest := WriteOctets(s, p, temp, j, sSz, cStr[at..at + j]);
    next := at + j;
  }

  lemma DecodeStep(cStr: string, at: nat, j: nat)
    requires at < |cStr| && at % 4 == 0 && j == First(|cStr| - at, 4)
    ensures var group := cStr[at..at + j];
            && Decode(cStr[..at + j]) == Decode(cStr[..at]) + DecodeGroup(group)
            && SizeLeft(|cStr| - at) == |DecodeGroup(group)| + SizeLeft(|cStr| - (at + j))
            && (at + j < |cStr| ==> (at + j) % 4 == 0)
  {
    BlocksStep(cStr, at, j, 4, DecodeGroup);
    DecodeCounts(at, |cStr|, j);
  }

  lemma DecodeCounts(at: nat, n: nat, j: nat)
    requires at < n && at % 4 == 0 && j == First(n - at, 4)
    ensures SizeLeft(n - at) == (if j >= 4 then 3 else 2) + SizeLeft(n - (at + j)) && (at + j < n ==> (at + j) % 4 == 0)
  {
    SizeLeftStep(n - at, j);
  }

  /** fromBase64 reads behind its table exactly if the text holds the octet 255. On every other text it fills its buffer
      with Decode(cStr) and a terminator; none of the guards on s_sz cuts a write off and the assertion `s_sz > 0` never
      fails. */
  method FromBase64(cStr: string) returns (s: array<Octet>, len: nat, over: bool)
    requires |cStr| <= DECODE_LIMIT && IsCString(cStr)
    ensures fresh(s) && (over <==> !Without(cStr, 255 as char))
    ensures !over ==> len == |Decode(cStr)| < s.Length == DecodeSize(|cStr|) + 1 + 10 < 0x8000_0000
    ensures !over ==> s[..len] == Decode(cStr) && ZerosFrom(s, len)
  {
    InTableIff(cStr);
    DecodeSizeCovers(|cStr|);
    var table := BuildTable();
    var sSz: int := DecodeSize(|cStr|);
    s := new Octet[sSz + 1 + 10](_ => 0);
    var at := 0;
    len, over := 0, false;
    while at < |cStr|
      invariant Decoding(s, len, sSz, cStr, at) && fresh(s) && fresh(table) && IsTable(table)
      invariant s.Length == DecodeSize(|cStr|) + 1 + 10
      invariant !over && InTable(cStr[..at])
    {
      var next;
      len, sSz, next, over := DecodeOne(s, len, sSz, cStr, at, table);
      if over {
        return;
      }
      assert cStr[..next] == cStr[..at] + cStr[at..next];
      at := next;
    }
    assert cStr[..at] == cStr;
    s[len] := 0;
  }

  // ---- round trip

  function Padded(x: seq<Octet>): (y: seq<Octet>)
    ensures |y| == (|x| + 2) / 3 * 3
  {
    x + seq((3 - |x| % 3) % 3, _ => 0)
  }

  lemma DecodeRfcGroup(x: seq<Octet>)
    requires 0 < |x| <= 3
    ensures DecodeGroup(RfcGroup(x)) == Three(x)
  {
    var t := Three(x);
    var o := Shifts(t[0], t[1], t[2]);
    RfcGroupIsShifts(x);
    forall k | 0 <= k < 4
      ensures Four(RfcGroup(x))[k] == o[k]
    {
      Decode6Encode6(o[k]);
    }
    assert Four(RfcGroup(x)) == [o[0], o[1], o[2], o[3]];
    assert Value(64, [o[0], o[1], o[2], o[3]]) == Value(256, [t[0], t[1], t[2]]) by {
      Value4(64, o[0], o[1], o[2], o[3]);
      Value3(256, t[0], t[1], t[2]);
    }
    assert t == [t[0], t[1], t[2]];
    DigitsOfValue(256, t);
  }

  /** Decoding an encoding gives the octets back, then zeros up to a multiple of three. */
  lemma {:induction false} RoundTrip(x: seq<Octet>)
    ensures Decode(RfcEncode(x)) == Padded(x)
  {
    if |x| > 0 {
      var k := First(|x|, 3);
      DecodeRfcGroup(x[..k]);
      OneBlock(RfcGroup(x[..k]), 4, DecodeGroup);
      BlocksSplit(RfcGroup(x[..k]), RfcEncode(x[k..]), 4, DecodeGroup);
      RoundTrip(x[k..]);
      PaddedSplit(x);
    }
  }

  lemma PaddedSplit(x: seq<Octet>)
    requires |x| > 0
    ensures var k := First(|x|, 3); Padded(x) == Three(x[..k]) + Padded(x[k..])
  {
    var k := First(|x|, 3);
    if |x| < 3 {
      assert Padded(x[k..]) == [];
    } else {
      assert x == x[..3] + x[3..] && Three(x[..3]) == x[..3];
    }
  }

  lemma {:induction false} EncodingHasNo(x: seq<Octet>, c: char)
    requires c != '=' && forall v: Sextet :: Encode6(v) != c
    ensures Without(RfcEncode(x), c)
  {
    if |x| > 0 {
      EncodingHasNo(x[First(|x|, 3)..], c);
    }
  }

  /** The encoding is one token: no blank and no NUL, so it can sit in a space-separated record. */
  lemma EncodingIsToken(x: seq<Octet>)
    ensures Without(RfcEncode(x), ' ') && Without(RfcEncode(x), '\0')
  {
    EncodingHasNo(x, ' ');
    EncodingHasNo(x, '\0');
  }
}
