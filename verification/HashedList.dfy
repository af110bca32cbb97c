/** chanserv.c threads every channel, registration, member and op record twice: on a main list with first and
    last pointers, and on the chain of its hash bucket. This module is that structure, once for all four. */
module HashedList {
  import opened Text
  import opened RegIds
  import Hash
  import L = ListMacros

  const OPHASHSIZE := 53

  // What a record is filed under: a channel name, a channel operator's nick id, or a member (the record of
  // an online user, whose nick picks the bucket and is never changed while the record is listed).
  datatype Key = Name(name: string) | Op(id: RegId) | Member(nick: string, person: nat) {
    function Bucket(size: nat): (b: nat)
      requires size > 0
      ensures b < size
    {
      match this
      case Name(s) => Hash.Bucket(s, size)
      case Op(id) => id.HashKey() % size
      case Member(nick, _) => Hash.Bucket(nick, size)
    }

    // The test the lookup loops make: strcasecmp, id equality, pointer equality.
    predicate Same(k: Key) {
      match (this, k)
      case (Name(a), Name(b)) => SameName(a, b)
      case _ => this == k
    }
  }

  lemma SameKeySameBucket(a: Key, b: Key, size: nat)
    requires size > 0 && a.Same(b)
    ensures a.Bucket(size) == b.Bucket(size)
  {
    if a.Name? {
      Hash.SameNameSameBucket(a.name, b.name, size);
    }
  }

  class Node {
    const key: Key
    var index: nat
    var next: Node?
    var previous: Node?
    var hashnext: Node?
    var hashprev: Node?

    constructor (key: Key)
      ensures this.key == key
    {
      this.key := key;
      index := 0;
      next, previous, hashnext, hashprev := null, null, null, null;
    }
  }

  ghost function At(s: seq<Node>, i: int): Node? {
    if 0 <= i < |s| then s[i] else null
  }

  ghost predicate Linked(s: seq<Node>)
    reads s
  {
    && (forall i {:trigger s[i].next} :: 0 <= i < |s| ==> s[i].next == At(s, i + 1))
    && (forall i {:trigger s[i].previous} :: 0 <= i < |s| ==> s[i].previous == At(s, i - 1))
  }

  ghost predicate HashLinked(s: seq<Node>)
    reads s`hashnext, s`hashprev
  {
    && (forall i {:trigger s[i].hashnext} :: 0 <= i < |s| ==> s[i].hashnext == At(s, i + 1))
    && (forall i {:trigger s[i].hashprev} :: 0 <= i < |s| ==> s[i].hashprev == At(s, i - 1))
  }

  /** The sublist of s that belongs to bucket b. */
  ghost function Chain(s: seq<Node>, b: nat, size: nat): (c: seq<Node>)
    requires size > 0
    ensures forall n :: n in s && n.key.Bucket(size) == b ==> n in c
    ensures forall n :: n in c ==> n in s && n.key.Bucket(size) == b
    ensures L.Distinct(s) ==> L.Distinct(c)
  {
    if s == [] then []
    else
      var rest := Chain(s[..|s| - 1], b, size);
      assert s == s[..|s| - 1] + [s[|s| - 1]];
      if s[|s| - 1].key.Bucket(size) == b then rest + [s[|s| - 1]] else rest
  }

  lemma ChainAppend(s: seq<Node>, n: Node, b: nat, size: nat)
    requires size > 0
    ensures Chain(s + [n], b, size) == if n.key.Bucket(size) == b then Chain(s, b, size) + [n] else Chain(s, b, size)
  {
    assert (s + [n])[..|s|] == s;
  }

  ghost function IndexOf(s: seq<Node>, n: Node): (i: nat)
    requires n in s
    ensures i < |s| && s[i] == n
  {
    if s[0] == n then 0 else 1 + IndexOf(s[1..], n)
  }

  /** s with the node n taken out. */
  lemma MinusTakesOut(s: seq<Node>, n: Node) returns (i: nat)
    requires L.Distinct(s) && n in s
    ensures i < |s| && s[i] == n && L.TakesOut(s, i, L.Minus(s, n)) && L.Distinct(L.Minus(s, n))
  {
    i := IndexOf(s, n);
    L.MinusAt(s, i);
    L.TakesOutRemoveAt(s, i);
  }

  lemma {:induction false} ChainMinus(s: seq<Node>, n: Node, b: nat, size: nat)
    requires size > 0 && L.Distinct(s) && n in s
    ensures Chain(L.Minus(s, n), b, size)
         == if n.key.Bucket(size) == b then L.Minus(Chain(s, b, size), n) else Chain(s, b, size)
  {
    var r, x := s[..|s| - 1], s[|s| - 1];
    assert s == r + [x];
    var c := Chain(r, b, size);
    ChainAppend(r, x, b, size);
    if x == n {
      assert (c + [x])[..|c|] == c;
    } else {
      ChainMinus(r, n, b, size);
      ChainAppend(L.Minus(r, n), x, b, size);
      assert (c + [x])[..|c|] == c;
    }
  }

  ghost function Chains(s: seq<Node>, size: nat): (cs: seq<seq<Node>>)
    requires size > 0
    ensures |cs| == size && forall b :: 0 <= b < size ==> cs[b] == Chain(s, b, size)
  {
    seq(size, b requires 0 <= b < size => Chain(s, b, size))
  }

  // No record of another chain is on chain h.
  ghost predicate AllApart(cs: seq<seq<Node>>, h: nat)
    requires h < |cs|
  {
    forall b, i :: 0 <= b < |cs| && b != h && 0 <= i < |cs[b]| ==> cs[b][i] !in cs[h]
  }

  lemma ChainsApart(s: seq<Node>, h: nat, size: nat)
    requires h < size
    ensures AllApart(Chains(s, size), h)
    ensures forall b, i :: 0 <= b < size && 0 <= i < |Chains(s, size)[b]| ==> Chains(s, size)[b][i] in s
  {
    var cs := Chains(s, size);
    forall b, i | 0 <= b < size && 0 <= i < |cs[b]|
      ensures cs[b][i] in s && (b != h ==> cs[b][i] !in cs[h])
    {
      assert cs[b][i] in Chain(s, b, size);
    }
  }

  lemma ChainsWith(s: seq<Node>, n: Node, size: nat)
    requires size > 0 && L.Distinct(s) && n !in s
    ensures var cs, h := Chains(s, size), n.key.Bucket(size);
            && AllApart(cs, h) && L.Distinct(cs[h]) && (forall i :: 0 <= i < |cs[h]| ==> cs[h][i] in s)
            && Chains(s + [n], size) == cs[h := cs[h] + [n]]
            && forall b :: 0 <= b < size ==> n !in cs[b]
  {
    var cs, h := Chains(s, size), n.key.Bucket(size);
    ChainsApart(s, h, size);
    var after, want := Chains(s + [n], size), cs[h := cs[h] + [n]];
    forall b | 0 <= b < size
      ensures after[b] == want[b]
    {
      ChainAppend(s, n, b, size);
    }
    assert |after| == |want|;
  }

  lemma ChainsWithout(s: seq<Node>, n: Node, size: nat)
    requires size > 0 && L.Distinct(s) && n in s
    ensures var cs, h := Chains(s, size), n.key.Bucket(size);
            && AllApart(cs, h) && L.Distinct(cs[h]) && n in cs[h] && (forall i :: 0 <= i < |cs[h]| ==> cs[h][i] in s)
            && Chains(L.Minus(s, n), size) == cs[h := L.Minus(cs[h], n)]
  {
    var cs, h := Chains(s, size), n.key.Bucket(size);
    ChainsApart(s, h, size);
    var after, want := Chains(L.Minus(s, n), size), cs[h := L.Minus(cs[h], n)];
    forall b | 0 <= b < size
      ensures after[b] == want[b]
    {
      ChainMinus(s, n, b, size);
    }
    assert |after| == |want|;
  }

  /** A scan of a whole list: the first record filed under the same key. */
  ghost function Scan(s: seq<Node>, k: Key): (r: Node?)
    ensures r == null ==> forall n :: n in s ==> !n.key.Same(k)
    ensures r != null ==> r in s && r.key.Same(k)
  {
    if s == [] then null
    else if s[0].key.Same(k) then s[0]
    else Scan(s[1..], k)
  }

  lemma {:induction false} ScanAt(s: seq<Node>, k: Key, i: nat)
    requires i <= |s| && forall j :: 0 <= j < i ==> !s[j].key.Same(k)
    requires i < |s| ==> s[i].key.Same(k)
    ensures Scan(s, k) == At(s, i)
  {
    if i > 0 {
      ScanAt(s[1..], k, i - 1);
    }
  }

  lemma {:induction false} ScanAppend(s: seq<Node>, n: Node, k: Key)
    ensures Scan(s + [n], k) == if Scan(s, k) != null then Scan(s, k) else if n.key.Same(k) then n else null
  {
    if s != [] {
      assert (s + [n])[1..] == s[1..] + [n];
      ScanAppend(s[1..], n, k);
    }
  }

  /** Searching the one chain finds what a search of the whole list finds. */
  lemma {:induction false} ChainScan(s: seq<Node>, k: Key, size: nat)
    requires size > 0
    ensures Scan(Chain(s, k.Bucket(size), size), k) == Scan(s, k)
  {
    if s != [] {
      var r, x := s[..|s| - 1], s[|s| - 1];
      assert s == r + [x];
      ChainScan(r, k, size);
      ChainAppend(r, x, k.Bucket(size), size);
      ScanAppend(r, x, k);
      ScanAppend(Chain(r, k.Bucket(size), size), x, k);
      if x.key.Same(k) {
        SameKeySameBucket(x.key, k, size);
      }
    }
  }

  // The records a link leads to.
  ghost function Just(n: Node?): set<Node> {
    if n == null then {} else {n}
  }

  // The record at position p and its neighbours stand at one place only.
  lemma OnceEach(s: seq<Node>, p: nat)
    requires L.Distinct(s) && p < |s|
    ensures forall j :: 0 <= j < |s| ==> (s[j] == s[p] <==> j == p)
    ensures forall j :: 0 <= j < |s| ==>
              (s[j] == At(s, p - 1) <==> j == p - 1) && (s[j] == At(s, p + 1) <==> j == p + 1)
  {
    L.Once(s, p);
    if p > 0 { L.Once(s, p - 1); }
    if p + 1 < |s| { L.Once(s, p + 1); }
  }

  // The links of s as they are once position p has been taken out are those of t.
  lemma TakenFromList(s: seq<Node>, p: nat, t: seq<Node>)
    requires L.TakesOut(s, p, t)
    requires forall j {:trigger s[j].next} :: 0 <= j < |s| && j != p ==>
               s[j].next == At(s, if j == p - 1 then p + 1 else j + 1)
    requires forall j {:trigger s[j].previous} :: 0 <= j < |s| && j != p ==>
               s[j].previous == At(s, if j == p + 1 then p - 1 else j - 1)
    ensures Linked(t)
  {
    forall i | 0 <= i < |t|
      ensures t[i].next == At(t, i + 1) && t[i].previous == At(t, i - 1)
    {
      assert t[i] == if i < p then s[i] else s[i + 1];
    }
  }

  lemma TakenFromChain(s: seq<Node>, p: nat, t: seq<Node>)
    requires L.TakesOut(s, p, t)
    requires forall j {:trigger s[j].hashnext} :: 0 <= j < |s| && j != p ==>
               s[j].hashnext == At(s, if j == p - 1 then p + 1 else j + 1)
    requires forall j {:trigger s[j].hashprev} :: 0 <= j < |s| && j != p ==>
               s[j].hashprev == At(s, if j == p + 1 then p - 1 else j - 1)
    ensures HashLinked(t)
  {
    forall i | 0 <= i < |t|
      ensures t[i].hashnext == At(t, i + 1) && t[i].hashprev == At(t, i - 1)
    {
      assert t[i] == if i < p then s[i] else s[i + 1];
    }
  }

  class Table {
    var first: Node?
    var last: Node?
    const heads: array<Node?>
    const tails: array<Node?>
    ghost var list: seq<Node>

    // Bucket b carries the chain c.
    ghost predicate Carries(b: nat, c: seq<Node>)
      reads heads, tails, c`hashnext, c`hashprev
      requires b < heads.Length == tails.Length
    {
      heads[b] == At(c, 0) && tails[b] == At(c, |c| - 1) && HashLinked(c)
    }

    // Every bucket carries the sublist of s that hashes to it.
    ghost predicate Chained(s: seq<Node>)
      reads heads, tails, s`hashnext, s`hashprev
      requires heads.Length == tails.Length
    {
      forall b :: 0 <= b < heads.Length ==> CarriesChain(b, s)
    }

    ghost predicate CarriesChain(b: nat, s: seq<Node>)
      reads heads, tails, s`hashnext, s`hashprev
      requires b < heads.Length == tails.Length
    {
      var c := Chain(s, b, heads.Length);
      assert forall i :: 0 <= i < |c| ==> c[i] in s;
      Carries(b, c)
    }

    ghost predicate Listed()
      reads this, list
    {
      first == At(list, 0) && last == At(list, |list| - 1) && Linked(list)
    }

    ghost predicate Valid()
      reads this, heads, tails, list
    {
      && heads.Length == tails.Length && heads.Length > 0 && heads != tails
      && L.Distinct(list)
      && Listed()
      && Chained(list)
    }

    constructor (size: nat)
      requires size > 0
      ensures Valid() && list == [] && heads.Length == size
      ensures fresh(heads) && fresh(tails)
    {
      first, last, list := null, null, [];
      heads := new Node?[size](_ => null);
      tails := new Node?[size](_ => null);
    }

    method AppendToList(n: Node, ghost s: seq<Node>)
      requires s == list && Listed() && n !in s && L.Distinct(s + [n])
      modifies `first, `last, Just(last)`next, n`next, n`previous
      ensures Linked(s + [n]) && first == At(s + [n], 0) && last == n
    {
      if first == null {
        first := n;
        n.previous := null;
      } else {
        last.next := n;
        n.previous := last;
      }
      last := n;
      n.next := null;
      forall i | 0 <= i < |s|
        ensures s[i].next == At(s + [n], i + 1) && s[i].previous == At(s + [n], i - 1)
      {
        if i < |s| - 1 {
          L.DistinctAt(s + [n], i, |s| - 1);
        }
      }
    }

    method AppendToChain(n: Node, h: nat, ghost c: seq<Node>)
      requires h < heads.Length == tails.Length && heads != tails
      requires n !in c && L.Distinct(c + [n]) && Carries(h, c)
      modifies heads, tails, Just(tails[h])`hashnext, n`hashnext, n`hashprev
      ensures Carries(h, c + [n])
      ensures forall b :: 0 <= b < heads.Length && b != h ==> heads[b] == old(heads[b]) && tails[b] == old(tails[b])
    {
      if heads[h] == null {
        heads[h] := n;
        n.hashprev := null;
      } else {
        tails[h].hashnext := n;
        n.hashprev := tails[h];
      }
      tails[h] := n;
      n.hashnext := null;
    }

    method UnlinkFromList(killme: Node, ghost s: seq<Node>, ghost p: nat, ghost t: seq<Node>)
      requires s == list && Listed() && L.Distinct(s)
      requires L.TakesOut(s, p, t) && s[p] == killme && L.Distinct(t)
      modifies `first, `last, Just(killme.previous)`next, Just(killme.next)`previous
      ensures Linked(t) && first == At(t, 0) && last == At(t, |t| - 1)
    {
      OnceEach(s, p);
      if killme.previous != null {
        killme.previous.next := killme.next;
      } else {
        first := killme.next;
      }
      if killme.next != null {
        killme.next.previous := killme.previous;
      } else {
        last := killme.previous;
      }
      TakenFromList(s, p, t);
    }

    method UnlinkHere(killme: Node, h: nat, ghost c: seq<Node>, ghost k: nat, ghost d: seq<Node>)
      requires h < heads.Length == tails.Length && heads != tails
      requires Carries(h, c) && L.Distinct(c)
      requires L.TakesOut(c, k, d) && c[k] == killme && L.Distinct(d)
      modifies heads, tails, Just(killme.hashprev)`hashnext, Just(killme.hashnext)`hashprev
      ensures Carries(h, d)
      ensures killme.hashnext == old(killme.hashnext)
      ensures forall b :: 0 <= b < heads.Length && b != h ==> heads[b] == old(heads[b]) && tails[b] == old(tails[b])
    {
      OnceEach(c, k);
      if killme.hashprev != null {
        killme.hashprev.hashnext := killme.hashnext;
      } else {
        heads[h] := killme.hashnext;
      }
      if killme.hashnext != null {
        killme.hashnext.hashprev := killme.hashprev;
      } else {
        tails[h] := killme.hashprev;
      }
      TakenFromChain(c, k, d);
    }

    // The walk goes on along c, with killme gone or still there.
    lemma NextInChain(c: seq<Node>, k: nat, d: seq<Node>, j: nat)
      requires L.TakesOut(c, k, d) && j < |c|
      requires j < k ==> HashLinked(c)
      requires j == k ==> c[j].hashnext == At(c, j + 1)
      requires j > k ==> HashLinked(d)
      ensures c[j].hashnext == At(c, j + 1)
    {
      if j > k {
        assert c[j] == d[j - 1];
      }
    }

    method UnlinkFromChain(killme: Node, h: nat, ghost c: seq<Node>, ghost k: nat, ghost d: seq<Node>)
      requires h < heads.Length == tails.Length && heads != tails
      requires Carries(h, c) && L.Distinct(c)
      requires L.TakesOut(c, k, d) && c[k] == killme && L.Distinct(d)
      modifies heads, tails, Just(killme.hashprev)`hashnext, Just(killme.hashnext)`hashprev
      ensures Carries(h, d)
      ensures forall b :: 0 <= b < heads.Length && b != h ==> heads[b] == old(heads[b]) && tails[b] == old(tails[b])
    {
      ghost var j := 0;
      var tmp := heads[h];
      while tmp != null
        invariant 0 <= j <= |c| && tmp == At(c, j)
        invariant j <= k ==> Carries(h, c)
        invariant j <= k ==> killme.hashprev == old(killme.hashprev) && killme.hashnext == old(killme.hashnext)
        invariant j > k ==> Carries(h, d)
        invariant forall b :: 0 <= b < heads.Length && b != h ==> heads[b] == old(heads[b]) && tails[b] == old(tails[b])
        decreases |c| - j
      {
        if tmp == killme {
          if j != k { L.DistinctAt(c, j, k); }
          UnlinkHere(killme, h, c, k, d);
        }
        NextInChain(c, k, d, j);
        tmp := tmp.hashnext;
        j := j + 1;
      }
    }

    // Every bucket carries its sequence.
    ghost predicate CarriesAll(cs: seq<seq<Node>>)
      reads heads, tails, set b, i | 0 <= b < |cs| && 0 <= i < |cs[b]| :: cs[b][i]
      requires |cs| == heads.Length == tails.Length
    {
      forall b {:trigger Carries(b, cs[b])} :: 0 <= b < |cs| ==> Carries(b, cs[b])
    }

    // AppendToChain leaves the other buckets as they were.
    method AppendAmong(n: Node, h: nat, ghost cs: seq<seq<Node>>)
      requires h < |cs| == heads.Length == tails.Length && heads != tails && CarriesAll(cs)
      requires n !in cs[h] && L.Distinct(cs[h] + [n]) && AllApart(cs, h) && forall b :: 0 <= b < |cs| ==> n !in cs[b]
      modifies heads, tails, cs[h]`hashnext, n`hashnext, n`hashprev
      ensures CarriesAll(cs[h := cs[h] + [n]])
    {
      assert Carries(h, cs[h]);
      assert |cs[h]| > 0 ==> cs[h][|cs[h]| - 1] in cs[h];
      AppendToChain(n, h, cs[h]);
      ghost var after := cs[h := cs[h] + [n]];
      forall b | 0 <= b < |after|
        ensures Carries(b, after[b])
      {
        if b != h {
          assert old(Carries(b, cs[b]));
        }
      }
    }

    method UnlinkAmong(killme: Node, h: nat, ghost cs: seq<seq<Node>>, ghost k: nat, ghost d: seq<Node>)
      requires h < |cs| == heads.Length == tails.Length && heads != tails && CarriesAll(cs)
      requires L.Distinct(cs[h]) && L.TakesOut(cs[h], k, d) && cs[h][k] == killme && L.Distinct(d) && AllApart(cs, h)
      modifies heads, tails, cs[h]`hashnext, cs[h]`hashprev
      ensures CarriesAll(cs[h := d])
    {
      assert Carries(h, cs[h]);
      assert k > 0 ==> cs[h][k - 1] in cs[h];
      assert k + 1 < |cs[h]| ==> cs[h][k + 1] in cs[h];
      UnlinkFromChain(killme, h, cs[h], k, d);
      ghost var after := cs[h := d];
      forall b | 0 <= b < |after|
        ensures Carries(b, after[b])
      {
        if b != h {
          assert old(Carries(b, cs[b]));
        }
      }
    }

    lemma CarriesAllOf(s: seq<Node>)
      requires heads.Length == tails.Length && heads.Length > 0
      ensures CarriesAll(Chains(s, heads.Length)) <==> Chained(s)
    {
      var cs := Chains(s, heads.Length);
      if CarriesAll(cs) {
        forall b | 0 <= b < heads.Length
          ensures CarriesChain(b, s)
        {
          assert Carries(b, cs[b]);
        }
      } else {
        var b :| 0 <= b < |cs| && !Carries(b, cs[b]);
        assert !CarriesChain(b, s);
      }
    }

    method LinkChain(n: Node, ghost s: seq<Node>)
      requires heads.Length == tails.Length && heads.Length > 0 && heads != tails
      requires L.Distinct(s) && n !in s && Chained(s)
      modifies heads, tails, s`hashnext, n`hashnext, n`hashprev
      ensures Chained(s + [n])
    {
      var h := n.key.Bucket(heads.Length);
      ghost var cs := Chains(s, heads.Length);
      CarriesAllOf(s);
      ChainsWith(s, n, heads.Length);
      DistinctAppend(cs[h], n);
      AppendAmong(n, h, cs);
      CarriesAllOf(s + [n]);
    }

    method UnlinkChain(killme: Node, ghost s: seq<Node>)
      requires heads.Length == tails.Length && heads.Length > 0 && heads != tails
      requires L.Distinct(s) && killme in s && Chained(s)
      modifies heads, tails, s`hashnext, s`hashprev
      ensures Chained(L.Minus(s, killme))
    {
      var h := killme.key.Bucket(heads.Length);
      ghost var cs := Chains(s, heads.Length);
      CarriesAllOf(s);
      ChainsWithout(s, killme, heads.Length);
      ghost var k := MinusTakesOut(cs[h], killme);
      UnlinkAmong(killme, h, cs, k, L.Minus(cs[h], killme));
      CarriesAllOf(L.Minus(s, killme));
    }

    // The two threadings use different links: what one does leaves the other as it was.

    method ListKeepingChains(n: Node, ghost s: seq<Node>)
      requires s == list && Listed() && n !in s && L.Distinct(s + [n])
      requires heads.Length == tails.Length && Chained(s)
      modifies `first, `last, s`next, n`next, n`previous
      ensures Linked(s + [n]) && first == At(s + [n], 0) && last == n
      ensures Chained(s)
    {
      assert |s| > 0 ==> s[|s| - 1] in s;
      AppendToList(n, s);
    }

    method UnlistKeepingChains(killme: Node, ghost s: seq<Node>, ghost p: nat, ghost t: seq<Node>)
      requires s == list && Listed() && L.Distinct(s)
      requires L.TakesOut(s, p, t) && s[p] == killme && L.Distinct(t)
      requires heads.Length == tails.Length && Chained(s)
      modifies `first, `last, s`next, s`previous
      ensures Linked(t) && first == At(t, 0) && last == At(t, |t| - 1)
      ensures Chained(s)
    {
      assert p > 0 ==> s[p - 1] in s;
      assert p + 1 < |s| ==> s[p + 1] in s;
      UnlinkFromList(killme, s, p, t);
    }

    method ChainKeepingList(n: Node, ghost s: seq<Node>)
      requires heads.Length == tails.Length && heads.Length > 0 && heads != tails
      requires L.Distinct(s) && n !in s && Chained(s) && Linked(s + [n])
      modifies heads, tails, s`hashnext, n`hashnext, n`hashprev
      ensures Chained(s + [n]) && Linked(s + [n])
    {
      LinkChain(n, s);
    }

    method UnchainKeepingList(killme: Node, ghost s: seq<Node>, ghost t: seq<Node>)
      requires heads.Length == tails.Length && heads.Length > 0 && heads != tails
      requires L.Distinct(s) && killme in s && Chained(s) && Linked(t)
      modifies heads, tails, s`hashnext, s`hashprev
      ensures Chained(L.Minus(s, killme)) && Linked(t)
    {
      UnlinkChain(killme, s);
    }

    /** addChanUser and the linking half of addChan, addRegChan and addChanOp. */
    method Append(n: Node)
      requires Valid() && n !in list
      modifies this, heads, tails, list, n
      ensures Valid() && list == old(list) + [n]
      ensures forall x :: x in list ==> x.index == old(x.index)
    {
      ghost var was := list;
      DistinctAppend(was, n);
      ListKeepingChains(n, was);
      ChainKeepingList(n, was);
      list := was + [n];
    }

    /** delChan, delRegChan, delChanUser and delChanOp: unlink from the main list, then search the chain. */
    method Unlink(killme: Node)
      requires Valid() && killme in list
      modifies this, heads, tails, list
      ensures Valid() && list == L.Minus(old(list), killme)
      ensures forall x :: x in old(list) ==> x.index == old(x.index)
    {
      ghost var was := list;
      ghost var p := MinusTakesOut(was, killme);
      UnlistKeepingChains(killme, was, p, L.Minus(was, killme));
      UnchainKeepingList(killme, was, L.Minus(was, killme));
      list := L.Minus(was, killme);
    }

    method NumberItem(tmp: Node, i: nat, ghost s: seq<Node>)
      requires 0 < i <= |s| && tmp == s[i - 1] && Linked(s) && L.Distinct(s)
      requires forall j :: 0 <= j < i - 1 ==> s[j].index == j + 1
      modifies tmp`index
      ensures Linked(s)
      ensures forall j :: 0 <= j < i ==> s[j].index == j + 1
    {
      tmp.index := i;
      forall j | 0 <= j < i
        ensures s[j].index == j + 1
      {
        if j != i - 1 { L.DistinctAt(s, j, i - 1); }
      }
    }

    method NumberItems(ghost s: seq<Node>)
      requires s == list && Listed() && L.Distinct(s)
      modifies s`index
      ensures Indexed(s) && Linked(s)
    {
      var i := 1;
      var tmp := first;
      while tmp != null
        invariant 1 <= i <= |s| + 1 && tmp == At(s, i - 1)
        invariant forall j :: 0 <= j < i - 1 ==> s[j].index == j + 1
        invariant Linked(s)
        decreases |s| - i
      {
        NumberItem(tmp, i, s);
        i := i + 1;
        tmp := tmp.next;
      }
    }

    method NumberKeepingChains(ghost s: seq<Node>)
      requires s == list && Listed() && L.Distinct(s)
      requires heads.Length == tails.Length && Chained(s)
      modifies s`index
      ensures Indexed(s) && Linked(s) && Chained(s)
    {
      NumberItems(s);
      forall b | 0 <= b < heads.Length
        ensures CarriesChain(b, s)
      {
        assert old(CarriesChain(b, s));
      }
    }

    /** indexOpItems: renumber the records from 1. */
    method IndexItems()
      requires Valid()
      modifies list`index
      ensures Valid() && Indexed(list)
    {
      NumberKeepingChains(list);
    }

    method SearchChain(h: nat, k: Key, ghost c: seq<Node>) returns (r: Node?)
      requires h < heads.Length == tails.Length && Carries(h, c)
      ensures r == Scan(c, k)
    {
      ghost var j := 0;
      r := heads[h];
      while r != null && !r.key.Same(k)
        invariant 0 <= j <= |c| && r == At(c, j)
        invariant forall i :: 0 <= i < j ==> !c[i].key.Same(k)
        decreases |c| - j
      {
        r := r.hashnext;
        j := j + 1;
      }
      ScanAt(c, k, j);
    }

    /** getChanData, getRegChanData, getChanOpData and getChanUserData: walk one chain. */
    method Lookup(k: Key) returns (r: Node?)
      requires Valid()
      ensures r == Scan(list, k)
    {
      var h := k.Bucket(heads.Length);
      assert CarriesChain(h, list);
      r := SearchChain(h, k, Chain(list, h, heads.Length));
      ChainScan(list, k, heads.Length);
    }

    /** addChan and addRegChan: a record whose name is already listed is dropped instead. */
    method Add(n: Node) returns (added: bool)
      requires Valid() && n !in list
      modifies this, heads, tails, list, n
      ensures Valid()
      ensures added <==> forall x :: x in old(list) ==> !x.key.Same(n.key)
      ensures list == if added then old(list) + [n] else old(list)
    {
      var found := Lookup(n.key);
      if found != null {
        return false;
      }
      Append(n);
      return true;
    }
  }

  /** A registered channel's operators: the table, the counter `ops`, and the 1-based index of each record. */
  class OpList {
    const table: Table
    var ops: nat

    ghost predicate Valid()
      reads this, table, table.heads, table.tails, table.list
    {
      table.Valid() && ops == |table.list| && Indexed(table.list)
    }

    constructor ()
      ensures Valid() && table.list == [] && ops == 0
      ensures fresh(table) && fresh(table.heads) && fresh(table.tails)
    {
      table := new Table(OPHASHSIZE);
      ops := 0;
    }

    method AddChanOp(item: Node)
      requires Valid() && item !in table.list
      modifies this, table, table.heads, table.tails, table.list, item
      ensures Valid() && table.list == old(table.list) + [item] && ops == old(ops) + 1
    {
      table.Append(item);
      ops := ops + 1;
      table.IndexItems();
    }

    method DelChanOp(item: Node)
      requires Valid() && item in table.list
      modifies this, table, table.heads, table.tails, table.list
      ensures Valid() && table.list == L.Minus(old(table.list), item) && ops == old(ops) - 1
    {
      ghost var p := MinusTakesOut(table.list, item);
      table.Unlink(item);
      ops := ops - 1;
      table.IndexItems();
    }
  }

  ghost predicate Indexed(s: seq<Node>)
    reads s
  {
    forall i :: 0 <= i < |s| ==> s[i].index == i + 1
  }

  lemma DistinctAppend(s: seq<Node>, n: Node)
    requires L.Distinct(s) && n !in s
    ensures L.Distinct(s + [n])
  {
    assert (s + [n])[..|s|] == s;
  }
}
