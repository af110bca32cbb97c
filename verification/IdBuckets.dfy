/** nickserv.c: the id-to-nick map. addRegNick walks a bucket of RegNickIdHash to the first id that the new one is not
    greater than. The walk is meant to keep the bucket ascending, but struct.h compares the new id's high half where it
    should compare its low half. */
module IdBuckets {
  import opened ListMacros
  import opened RegIds

  const IDHASHSIZE := 1000

  // The bucket of an id.
  function Home(id: RegId): (b: nat)
    ensures b < IDHASHSIZE
  {
    id.HashKey() % IDHASHSIZE
  }

  datatype IdMap = IdMap(id: RegId, nick: string)

  ghost predicate Ascending(s: seq<Node<IdMap>>) {
    forall i, j :: 0 <= i < j < |s| ==> !s[i].item.id.Above(s[j].item.id)
  }

  ghost predicate Descending(s: seq<Node<IdMap>>) {
    forall i, j :: 0 <= i < j < |s| ==> s[i].item.id.Above(s[j].item.id)
  }

  // How many nodes lie strictly below id: where the new node belongs.
  ghost function Rank(s: seq<Node<IdMap>>, id: RegId): (k: nat)
    ensures k <= |s|
  {
    if s == [] || !id.Above(s[0].item.id) then 0 else 1 + Rank(s[1..], id)
  }

  lemma {:induction false} RankAt(s: seq<Node<IdMap>>, id: RegId, k: nat)
    requires k <= |s|
    requires forall i :: 0 <= i < k ==> id.Above(s[i].item.id)
    requires k == |s| || !id.Above(s[k].item.id)
    ensures Rank(s, id) == k
  {
    if k > 0 {
      RankAt(s[1..], id, k - 1);
    }
  }

  // Where the walk of addRegNick stops.
  ghost function Stop(s: seq<Node<IdMap>>, id: RegId): (k: nat)
    ensures k <= |s|
  {
    if s == [] || !id.Greater(s[0].item.id) then 0 else 1 + Stop(s[1..], id)
  }

  lemma {:induction false} StopAt(s: seq<Node<IdMap>>, id: RegId, k: nat)
    requires k <= |s|
    requires forall i :: 0 <= i < k ==> id.Greater(s[i].item.id)
    requires k == |s| || !id.Greater(s[k].item.id)
    ensures Stop(s, id) == k
  {
    if k > 0 {
      StopAt(s[1..], id, k - 1);
    }
  }

  lemma {:induction false} StopSplits(s: seq<Node<IdMap>>, id: RegId)
    ensures var k := Stop(s, id);
            && (forall i :: 0 <= i < k ==> id.Greater(s[i].item.id))
            && (k < |s| ==> !id.Greater(s[k].item.id))
  {
    if s != [] && id.Greater(s[0].item.id) {
      StopSplits(s[1..], id);
      assert forall i :: 1 <= i < |s| ==> s[i] == s[1..][i - 1];
    }
  }

  lemma {:induction false} RankSplits(s: seq<Node<IdMap>>, id: RegId)
    requires Ascending(s)
    ensures forall i :: 0 <= i < |s| ==> (i < Rank(s, id) <==> id.Above(s[i].item.id))
  {
    if s != [] {
      RankSplits(s[1..], id);
      assert forall i :: 1 <= i < |s| ==> s[i] == s[1..][i - 1];
    }
  }

  lemma AscendingAtRank(s: seq<Node<IdMap>>, n: Node<IdMap>)
    requires Ascending(s)
    ensures Ascending(InsertAt(s, Rank(s, n.item.id), n))
  {
    RankSplits(s, n.item.id);
    var k := Rank(s, n.item.id);
    var t := InsertAt(s, k, n);
    assert forall i :: 0 <= i < k ==> t[i] == s[i];
    assert forall i :: k < i < |t| ==> t[i] == s[i - 1];
  }

  lemma InsertedAbove(s: seq<Node<IdMap>>, n: Node<IdMap>, k: nat, i: nat)
    requires i < k <= |s| && s[i].item.id != n.item.id
    requires Ascending(InsertAt(s, k, n))
    ensures n.item.id.Above(s[i].item.id)
  {
    var t := InsertAt(s, k, n);
    assert t[i] == s[i] && t[k] == n;
    assert !s[i].item.id.Above(n.item.id);
  }

  lemma InsertedBelow(s: seq<Node<IdMap>>, n: Node<IdMap>, k: nat)
    requires k < |s|
    requires Ascending(InsertAt(s, k, n))
    ensures !n.item.id.Above(s[k].item.id)
  {
    var t := InsertAt(s, k, n);
    assert t[k] == n && t[k + 1] == s[k];
  }

  /** With distinct ids, the rank is the only place that keeps the bucket ascending. */
  lemma AscendingOnlyAtRank(s: seq<Node<IdMap>>, n: Node<IdMap>, k: nat)
    requires Ascending(s) && k <= |s|
    requires forall i :: 0 <= i < |s| ==> s[i].item.id != n.item.id
    requires Ascending(InsertAt(s, k, n))
    ensures k == Rank(s, n.item.id)
  {
    forall i | 0 <= i < k
      ensures n.item.id.Above(s[i].item.id)
    {
      InsertedAbove(s, n, k, i);
    }
    if k < |s| {
      InsertedBelow(s, n, k);
    }
    RankAt(s, n.item.id, k);
  }

  /** Unlinking any node leaves the bucket ascending. */
  lemma RemoveAscending(s: seq<Node<IdMap>>, i: nat)
    requires Ascending(s) && i < |s|
    ensures Ascending(RemoveAt(s, i))
  {
    var t := RemoveAt(s, i);
    assert forall k :: 0 <= k < |t| ==> t[k] == s[if k < i then k else k + 1];
  }

  // The mistaken comparison decides as the right one would, for this new id and every listed one.
  ghost predicate ComparesRight(s: seq<Node<IdMap>>, id: RegId) {
    forall i :: 0 <= i < |s| && s[i].item.id.a == id.a ==> (id.a > s[i].item.id.b <==> id.b > s[i].item.id.b)
  }

  /** The walk of addRegNick keeps an ascending bucket ascending exactly if every listed id with the new one's high
      half has its low half on the same side of both halves of the new id. */
  lemma WalkKeepsIff(s: seq<Node<IdMap>>, n: Node<IdMap>)
    requires Ascending(s) && forall i :: 0 <= i < |s| ==> s[i].item.id != n.item.id
    ensures Ascending(InsertAt(s, Stop(s, n.item.id), n)) <==> ComparesRight(s, n.item.id)
  {
    var id, k := n.item.id, Stop(s, n.item.id);
    RankSplits(s, id);
    StopSplits(s, id);
    AscendingAtRank(s, n);
    if ComparesRight(s, id) {
      assert forall i :: 0 <= i < |s| ==> (id.Greater(s[i].item.id) <==> id.Above(s[i].item.id));
      StopAt(s, id, Rank(s, id));
    } else if Ascending(InsertAt(s, k, n)) {
      AscendingOnlyAtRank(s, n, k);
      RightFromRank(s, id, k);
    }
  }

  // If the walk stops at the rank, no comparison has gone wrong, or would have further on.
  lemma RightFromRank(s: seq<Node<IdMap>>, id: RegId, k: nat)
    requires Ascending(s) && k <= |s|
    requires forall i :: 0 <= i < |s| ==> (i < k <==> id.Above(s[i].item.id))
    requires forall i :: 0 <= i < k ==> id.Greater(s[i].item.id)
    requires k < |s| ==> !id.Greater(s[k].item.id)
    ensures ComparesRight(s, id)
  {
    forall i | k <= i < |s| && s[i].item.id.a == id.a
      ensures id.a <= s[i].item.id.b
    {
      assert !s[k].item.id.Above(s[i].item.id) || i == k;
      assert !id.Above(s[k].item.id);
    }
  }

  lemma FirstHomes()
    ensures RegId(0, 1001).HashKey() == 64562 && RegId(0, 2001).HashKey() == 63562
  {
    assert (0 as bv16) ^ 27 == 27;
  }

  /** The first and the 1001st registration are in one bucket, and the later one is put before the earlier one. */
  lemma WalkExample(m: Node<IdMap>, n: Node<IdMap>)
    requires m.item.id == RegId(0, 1001) && n.item.id == RegId(0, 2001)
    ensures Home(m.item.id) == Home(n.item.id)
    ensures Ascending([m]) && InsertAt([m], Stop([m], n.item.id), n) == [n, m] && !Ascending([n, m])
  {
    FirstHomes();
    LowIdsAtHead([m], n.item.id);
    var t := [n, m];
    assert t[0] == n && t[1] == m && n.item.id.Above(m.item.id);
  }

  /** An id with high half 0, as the first 64535 registrations get, is put at the head of its bucket. */
  lemma LowIdsAtHead(s: seq<Node<IdMap>>, id: RegId)
    requires id.a == 0
    ensures Stop(s, id) == 0
  {
  }

  // So as long as ids are given in order, a bucket has the newest first.
  lemma HeadDescends(s: seq<Node<IdMap>>, n: Node<IdMap>)
    requires Descending(s) && forall i :: 0 <= i < |s| ==> n.item.id.Above(s[i].item.id)
    ensures Descending(InsertAt(s, 0, n))
  {
    assert forall i :: 0 < i <= |s| ==> InsertAt(s, 0, n)[i] == s[i - 1];
  }

  lemma RemoveDescending(s: seq<Node<IdMap>>, i: nat)
    requires Descending(s) && i < |s|
    ensures Descending(RemoveAt(s, i))
  {
    var t := RemoveAt(s, i);
    assert forall k :: 0 <= k < |t| ==> t[k] == s[if k < i then k else k + 1];
  }

  /** The id half of addRegNick: the walk that finds the new node's place. */
  method AddIdMap(h: Head<IdMap>, mapPtr: Node<IdMap>, ghost s: seq<Node<IdMap>>) returns (ghost t: seq<Node<IdMap>>)
    requires IsList(h, s) && mapPtr !in s
    modifies h, s, mapPtr
    ensures t == InsertAt(s, Stop(s, mapPtr.item.id), mapPtr) && IsList(h, t)
  {
    ghost var r := Stop(s, mapPtr.item.id);
    t := InsertAt(s, r, mapPtr);
    PutsInInsertAt(s, r, mapPtr);
    if h.first == null {
      InsertHead(h, mapPtr, s, t);
    } else {
      var iter: Node?<IdMap> := h.first;
      ghost var k := 0;
      while iter != null
        invariant IsList(h, s)
        invariant iter != null ==> 0 <= k < |s| && s[k] == iter
        invariant iter != null ==> forall i :: 0 <= i < k ==> mapPtr.item.id.Greater(s[i].item.id)
        invariant iter != null
        decreases |s| - k
      {
        var iterNext := iter.next;
        if mapPtr.item.id.Greater(iter.item.id) {
          if iterNext != null {
            iter := iterNext;
            k := k + 1;
            continue;
          }
          StopAt(s, mapPtr.item.id, k + 1);
          InsertAfter(iter, mapPtr, h, s, k, t);
          break;
        } else {
          StopAt(s, mapPtr.item.id, k);
          InsertBefore(iter, mapPtr, h, s, k, t);
          break;
        }
      }
    }
  }

  /** RegId::getIdMap: the first node carrying the id. */
  method GetIdMap(h: Head<IdMap>, id: RegId, ghost s: seq<Node<IdMap>>) returns (r: Node?<IdMap>, ghost k: nat)
    requires IsList(h, s)
    ensures k <= |s| && forall i :: 0 <= i < k ==> s[i].item.id != id
    ensures r == null <==> k == |s|
    ensures r != null ==> r == s[k] && r.item.id == id
  {
    r := h.first;
    k := 0;
    while r != null
      invariant k <= |s| && r == After(s, k - 1)
      invariant forall i :: 0 <= i < k ==> s[i].item.id != id
      decreases |s| - k
    {
      if r.item.id == id {
        return;
      }
      r := r.next;
      k := k + 1;
    }
  }

  /** The id half of delRegNick: look the id up and unlink what was found; `gone` is where it was. */
  method DelIdMap(h: Head<IdMap>, id: RegId, ghost s: seq<Node<IdMap>>)
    returns (ghost t: seq<Node<IdMap>>, ghost gone: nat)
    requires IsList(h, s)
    modifies h, s
    ensures IsList(h, t)
    ensures gone <= |s| && (gone == |s| <==> forall i :: 0 <= i < |s| ==> s[i].item.id != id)
    ensures if gone == |s| then t == s else s[gone].item.id == id && t == RemoveAt(s, gone)
  {
    var mapPtr;
    mapPtr, gone := GetIdMap(h, id, s);
    if mapPtr != null {
      TakesOutRemoveAt(s, gone);
      t := RemoveAt(s, gone);
      Remove(mapPtr, h, s, gone, t);
    } else {
      t := s;
    }
  }

  // ---- RegNickIdHash

  lemma {:induction false} InRemoved<T>(s: seq<T>, i: nat, x: T)
    requires Distinct(s) && i < |s|
    ensures x in RemoveAt(s, i) <==> x in s && x != s[i]
  {
    var t := RemoveAt(s, i);
    if x in s {
      var k :| 0 <= k < |s| && s[k] == x;
      if k != i {
        DistinctAt(s, k, i);
        assert t[if k < i then k else k - 1] == x;
      }
    }
    if x in t {
      var k :| 0 <= k < |t| && t[k] == x;
      assert t[k] == s[if k < i then k else k + 1];
      DistinctAt(s, if k < i then k else k + 1, i);
    }
  }

  lemma InInserted<T>(s: seq<T>, i: nat, x: T, y: T)
    requires i <= |s|
    ensures y in InsertAt(s, i, x) <==> y in s || y == x
  {
    assert s == s[..i] + s[i..];
  }

  // Every node is in the list that its id hashes to, and in no other.
  ghost predicate Placed(lists: seq<seq<Node<IdMap>>>, nodes: set<Node<IdMap>>) {
    && |lists| == IDHASHSIZE
    && (forall b, i :: 0 <= b < IDHASHSIZE && 0 <= i < |lists[b]| ==>
          lists[b][i] in nodes && Home(lists[b][i].item.id) == b)
    && (forall n :: n in nodes ==> n in lists[Home(n.item.id)])
  }

  // No two nodes carry the same id.
  ghost predicate UniqueIds(nodes: set<Node<IdMap>>) {
    forall m, n :: m in nodes && n in nodes && m.item.id == n.item.id ==> m == n
  }

  ghost predicate Unused(nodes: set<Node<IdMap>>, id: RegId) {
    forall n :: n in nodes ==> n.item.id != id
  }

  lemma UniqueAdd(nodes: set<Node<IdMap>>, n: Node<IdMap>)
    ensures UniqueIds(nodes) && Unused(nodes, n.item.id) ==> UniqueIds(nodes + {n})
  {
  }

  lemma PlacedHere(lists: seq<seq<Node<IdMap>>>, nodes: set<Node<IdMap>>, b: nat)
    requires Placed(lists, nodes) && b < IDHASHSIZE
    ensures forall i :: 0 <= i < |lists[b]| ==> lists[b][i] in nodes
  {
  }

  lemma PlacedApart(lists: seq<seq<Node<IdMap>>>, nodes: set<Node<IdMap>>, b: nat, c: nat)
    requires Placed(lists, nodes) && b < IDHASHSIZE && c < IDHASHSIZE && b != c
    ensures forall i :: 0 <= i < |lists[c]| ==> lists[c][i] in nodes && lists[c][i] !in lists[b]
  {
  }

  lemma PlacedAdd(lists: seq<seq<Node<IdMap>>>, nodes: set<Node<IdMap>>, n: Node<IdMap>, k: nat)
    requires Placed(lists, nodes) && k <= |lists[Home(n.item.id)]|
    ensures var b := Home(n.item.id); Placed(lists[b := InsertAt(lists[b], k, n)], nodes + {n})
  {
    var b := Home(n.item.id);
    forall m | m in lists[b] || m == n
      ensures m in InsertAt(lists[b], k, n)
    {
      InInserted(lists[b], k, n, m);
    }
  }

  lemma PlacedDel(lists: seq<seq<Node<IdMap>>>, nodes: set<Node<IdMap>>, b: nat, k: nat)
    requires Placed(lists, nodes) && b < IDHASHSIZE && k < |lists[b]| && Distinct(lists[b])
    ensures Placed(lists[b := RemoveAt(lists[b], k)], nodes - {lists[b][k]})
  {
    var s, t := lists[b], RemoveAt(lists[b], k);
    forall i | 0 <= i < |t|
      ensures t[i] in s && t[i] != s[k]
    {
      InRemoved(s, k, t[i]);
    }
    forall m | m in s && m != s[k]
      ensures m in t
    {
      InRemoved(s, k, m);
    }
  }

  // Every bucket carries its list.
  ghost predicate AllLists(heads: seq<Head<IdMap>>, lists: seq<seq<Node<IdMap>>>)
    requires |heads| == |lists|
    reads heads, set b, i | 0 <= b < |lists| && 0 <= i < |lists[b]| :: lists[b][i]
  {
    forall b {:trigger IsList(heads[b], lists[b])} :: 0 <= b < |heads| ==> IsList(heads[b], lists[b])
  }

  ghost predicate Apart(heads: seq<Head<IdMap>>) {
    forall b, c :: 0 <= b < c < |heads| ==> heads[b] != heads[c]
  }

  // The same table but for bucket b.
  method AddAt(heads: seq<Head<IdMap>>, b: nat, mapPtr: Node<IdMap>, ghost lists: seq<seq<Node<IdMap>>>,
               ghost nodes: set<Node<IdMap>>) returns (ghost t: seq<Node<IdMap>>)
    requires Placed(lists, nodes) && mapPtr !in nodes && |heads| == IDHASHSIZE && Apart(heads) && b < IDHASHSIZE
    requires AllLists(heads, lists)
    modifies heads[b], lists[b], mapPtr
    ensures t == InsertAt(lists[b], Stop(lists[b], mapPtr.item.id), mapPtr)
    ensures AllLists(heads, lists[b := t])
  {
    assert IsList(heads[b], lists[b]);
    t := AddIdMap(heads[b], mapPtr, lists[b]);
    forall c | 0 <= c < IDHASHSIZE
      ensures IsList(heads[c], lists[b := t][c])
    {
      if c != b {
        PlacedApart(lists, nodes, b, c);
        assert old(IsList(heads[c], lists[c]));
        assert heads[c] != heads[b];
      }
    }
  }

  method DelAt(heads: seq<Head<IdMap>>, b: nat, id: RegId, ghost lists: seq<seq<Node<IdMap>>>,
               ghost nodes: set<Node<IdMap>>) returns (ghost t: seq<Node<IdMap>>, ghost gone: nat)
    requires Placed(lists, nodes) && |heads| == IDHASHSIZE && Apart(heads) && b < IDHASHSIZE
    requires AllLists(heads, lists)
    modifies heads[b], lists[b]
    ensures Distinct(lists[b]) && AllLists(heads, lists[b := t])
    ensures gone <= |lists[b]|
    ensures gone == |lists[b]| <==> forall i :: 0 <= i < |lists[b]| ==> lists[b][i].item.id != id
    ensures if gone == |lists[b]| then t == lists[b] else lists[b][gone].item.id == id && t == RemoveAt(lists[b], gone)
  {
    assert IsList(heads[b], lists[b]);
    t, gone := DelIdMap(heads[b], id, lists[b]);
    forall c | 0 <= c < IDHASHSIZE
      ensures IsList(heads[c], lists[b := t][c])
    {
      if c != b {
        PlacedApart(lists, nodes, b, c);
        assert old(IsList(heads[c], lists[c]));
        assert heads[c] != heads[b];
      }
    }
  }

  class IdTable {
    const heads: seq<Head<IdMap>>
    ghost var lists: seq<seq<Node<IdMap>>>
    ghost var nodes: set<Node<IdMap>>

    /** Every bucket is a list, and every node is in the bucket that its id hashes to. */
    ghost predicate Valid()
      reads this, heads, set b, i | 0 <= b < |lists| && 0 <= i < |lists[b]| :: lists[b][i]
    {
      Placed(lists, nodes) && |heads| == IDHASHSIZE && Apart(heads) && AllLists(heads, lists)
    }

    constructor (heads: seq<Head<IdMap>>)
      requires |heads| == IDHASHSIZE && Apart(heads)
      requires forall b :: 0 <= b < IDHASHSIZE ==> heads[b].first == null
      ensures Valid() && nodes == {} && this.heads == heads
    {
      this.heads := heads;
      lists := seq(IDHASHSIZE, _ => []);
      nodes := {};
    }

    /** The id half of addRegNick. */
    method Add(mapPtr: Node<IdMap>)
      requires Valid() && mapPtr !in nodes
      modifies this, heads, nodes, mapPtr
      ensures Valid() && nodes == old(nodes) + {mapPtr}
      ensures var b := Home(mapPtr.item.id);
              lists == old(lists)[b := InsertAt(old(lists)[b], Stop(old(lists)[b], mapPtr.item.id), mapPtr)]
      ensures UniqueIds(old(nodes)) && Unused(old(nodes), mapPtr.item.id) ==> UniqueIds(nodes)
    {
      var b := Home(mapPtr.item.id);
      PlacedAdd(lists, nodes, mapPtr, Stop(lists[b], mapPtr.item.id));
      PlacedHere(lists, nodes, b);
      ghost var t := AddAt(heads, b, mapPtr, lists, nodes);
      UniqueAdd(nodes, mapPtr);
      lists, nodes := lists[b := t], nodes + {mapPtr};
    }

    /** getIdMap finds an id exactly if a node carries it. */
    method Get(id: RegId) returns (r: Node?<IdMap>)
      requires Valid()
      ensures r == null <==> Unused(nodes, id)
      ensures r != null ==> r in nodes && r.item.id == id
    {
      ghost var k;
      assert IsList(heads[Home(id)], lists[Home(id)]);
      r, k := GetIdMap(heads[Home(id)], id, lists[Home(id)]);
    }

    /** The id half of delRegNick: one node with the id goes, if there is one, and nothing else changes. */
    method Del(id: RegId)
      requires Valid()
      modifies this, heads, nodes
      ensures Valid()
      ensures Unused(old(nodes), id) ==> nodes == old(nodes)
      ensures (exists n :: n in old(nodes) && n.item.id == id) ==>
                exists n :: n in old(nodes) && n.item.id == id && nodes == old(nodes) - {n}
      ensures UniqueIds(old(nodes)) ==> UniqueIds(nodes) && Unused(nodes, id)
    {
      var b := Home(id);
      PlacedHere(lists, nodes, b);
      ghost var t, gone := DelAt(heads, b, id, lists, nodes);
      if gone < |lists[b]| {
        PlacedDel(lists, nodes, b, gone);
        nodes := nodes - {lists[b][gone]};
      }
      lists := lists[b := t];
    }
  }
}
