/** C strings as the services code uses them: case folding in the C locale, the comparison
    strcasecmp, signed decimal output (`%i`) and atoi/atol. */
module Text {

  // struct.h: buffer sizes.
  const NICKLEN := 18
  const USERLEN := 11
  const HOSTLEN := 64
  const CHANLEN := 33

  function Min(a: int, b: int): int {
    if a < b then a else b
  }

  datatype Option<+T> = None | Some(value: T) {
    function GetOr(default: T): T {
      match this
      case Some(v) => v
      case None => default
    }
  }

  function ToLower(c: char): char {
    if 'A' <= c <= 'Z' then (c as int + 32) as char else c
  }

  /** strcasecmp(a, b) == 0. */
  predicate SameName(a: string, b: string) {
    |a| == |b| && forall i :: 0 <= i < |a| ==> ToLower(a[i]) == ToLower(b[i])
  }

  function Lower(s: string): (t: string)
    ensures |t| == |s| && forall i :: 0 <= i < |s| ==> t[i] == ToLower(s[i])
  {
    seq(|s|, i requires 0 <= i < |s| => ToLower(s[i]))
  }

  /** strcasecmp equality is equality of the lower-cased names. */
  lemma SameNameIsLower(a: string, b: string)
    ensures SameName(a, b) <==> Lower(a) == Lower(b)
  {
    if Lower(a) == Lower(b) {
      forall i | 0 <= i < |a|
        ensures ToLower(a[i]) == ToLower(b[i])
      {
        assert Lower(a)[i] == Lower(b)[i];
      }
    }
  }

  function Repeat(c: char, n: nat): (s: string)
    ensures |s| == n && forall i :: 0 <= i < n ==> s[i] == c
  {
    seq(n, _ => c)
  }

  lemma Assoc<T>(a: seq<T>, b: seq<T>, c: seq<T>)
    ensures a + b + c == a + (b + c)
  {
  }

  predicate Without(s: string, c: char) {
    forall i :: 0 <= i < |s| ==> s[i] != c
  }

  function NonEmpty(parts: seq<string>): seq<string> {
    if parts == [] then []
    else (if parts[0] == "" then [] else [parts[0]]) + NonEmpty(parts[1..])
  }

  lemma {:induction false} NonEmptyAppend(a: seq<string>, b: seq<string>)
    ensures NonEmpty(a + b) == NonEmpty(a) + NonEmpty(b)
  {
    if a == [] {
      assert a + b == b;
    } else {
      assert (a + b)[0] == a[0] && (a + b)[1..] == a[1..] + b;
      NonEmptyAppend(a[1..], b);
      assert [a[0]] + (NonEmpty(a[1..]) + NonEmpty(b)) == [a[0]] + NonEmpty(a[1..]) + NonEmpty(b);
    }
  }

  predicate IsDigit(c: char) {
    '0' <= c <= '9'
  }

  function DigitChar(d: nat): (c: char)
    requires d < 10
    ensures IsDigit(c) && c as int - '0' as int == d
  {
    ('0' as int + d) as char
  }

  // Decimal digits of n, most significant first.
  function PrintNat(n: nat): (s: string)
    ensures |s| > 0 && forall i :: 0 <= i < |s| ==> IsDigit(s[i])
  {
    if n < 10 then [DigitChar(n)] else PrintNat(n / 10) + [DigitChar(n % 10)]
  }

  function PrintInt(n: int): (s: string)
    ensures |s| > 0 && forall i :: 0 <= i < |s| ==> IsDigit(s[i]) || s[i] == '-'
  {
    if n < 0 then "-" + PrintNat(-n) else PrintNat(n)
  }

  // The value of the leading digits of s, continuing from acc.
  function DigitsValue(s: string, acc: nat): nat {
    if s == "" || !IsDigit(s[0]) then acc
    else DigitsValue(s[1..], 10 * acc + (s[0] as int - '0' as int))
  }

  predicate IsSpace(c: char) {
    c == ' ' || '\t' <= c <= '\r'
  }

  /** atoi/atol: leading white space, one optional sign, then digits up to the first other character. */
  function Atoi(s: string): int {
    if s == "" then 0
    else if IsSpace(s[0]) then Atoi(s[1..])
    else if s[0] == '-' then 0 - DigitsValue(s[1..], 0)
    else if s[0] == '+' then DigitsValue(s[1..], 0)
    else DigitsValue(s, 0)
  }

  lemma {:induction false} DigitsValueSnoc(s: string, d: char, acc: nat)
    requires forall i :: 0 <= i < |s| ==> IsDigit(s[i])
    requires IsDigit(d)
    ensures DigitsValue(s + [d], acc) == 10 * DigitsValue(s, acc) + (d as int - '0' as int)
  {
    if s == "" {
      assert DigitsValue([d], acc) == DigitsValue([d][1..], 10 * acc + (d as int - '0' as int));
    } else {
      assert (s + [d])[1..] == s[1..] + [d];
      DigitsValueSnoc(s[1..], d, 10 * acc + (s[0] as int - '0' as int));
    }
  }

  lemma {:induction false} PrintNatValue(n: nat)
    ensures DigitsValue(PrintNat(n), 0) == n
  {
    if n < 10 {
      assert DigitsValue([DigitChar(n)], 0) == DigitsValue([DigitChar(n)][1..], n);
    } else {
      PrintNatValue(n / 10);
      DigitsValueSnoc(PrintNat(n / 10), DigitChar(n % 10), 0);
    }
  }

  /** What `%i` prints, atoi reads back. */
  lemma AtoiPrintInt(n: int)
    ensures Atoi(PrintInt(n)) == n
  {
    if n < 0 {
      PrintNatValue(-n);
      assert ("-" + PrintNat(-n))[1..] == PrintNat(-n);
    } else {
      PrintNatValue(n);
    }
  }
}

/** hash.c: the 16-bit rotate/xor hash that indexes every table. */
module Hash {
  import opened Text

  const SEED: bv16 := 0x5555

  function Octet(c: char): bv16 {
    (c as int % 0x100) as bv16
  }

  // One turn of the loop: rotate left by three, then xor with the lower-cased octet.
  function HashStep(h: bv16, c: char): bv16 {
    ((h << 3) | (h >> 13)) ^ Octet(ToLower(c))
  }

  function HashFrom(h: bv16, name: string): bv16
    decreases |name|
  {
    if name == "" then h else HashFrom(HashStep(h, name[0]), name[1..])
  }

  function HashKey(name: string): bv16 {
    HashFrom(SEED, name)
  }

  method HashOne(h: bv16, c: char) returns (hash: bv16)
    ensures hash == HashStep(h, c)
  {
    hash := ((h << 3) | (h >> 13)) ^ Octet(ToLower(c));
  }

  method GetHashKey(name: string) returns (hash: bv16)
    ensures hash == HashKey(name)
  {
    hash := SEED;
    assert name[0..] == name;
    for i := 0 to |name|
      invariant HashFrom(hash, name[i..]) == HashKey(name)
    {
      assert name[i..][0] == name[i] && name[i..][1..] == name[i + 1..];
      hash := HashOne(hash, name[i]);
    }
  }

  function Bucket(name: string, size: nat): (b: nat)
    requires size > 0
    ensures b < size
  {
    HashKey(name) as nat % size
  }

  lemma {:induction false} SameNameSameHashFrom(h: bv16, a: string, b: string)
    requires SameName(a, b)
    ensures HashFrom(h, a) == HashFrom(h, b)
    decreases |a|
  {
    if a != "" {
      SameNameSameHashFrom(HashStep(h, a[0]), a[1..], b[1..]);
    }
  }

  /** Names that strcasecmp calls equal fall in the same bucket of every table. */
  lemma SameNameSameBucket(a: string, b: string, size: nat)
    requires size > 0 && SameName(a, b)
    ensures HashKey(a) == HashKey(b) && Bucket(a, size) == Bucket(b, size)
  {
    SameNameSameHashFrom(SEED, a, b);
  }
}
