/** queue.h: the LIST_ macros, with `le_prev` holding the address of the pointer that reaches the node.
    `IsList(h, s)` says that head `h` carries exactly the nodes `s`, in that order. */
module ListMacros {

  // The value of a `struct type **`: NULL, &head->lh_first or &elm->le_next.
  datatype Address<T> = Nowhere | FirstOf(head: Head<T>) | NextOf(node: Node<T>)

  class Head<T> {
    var first: Node?<T>

    constructor ()
      ensures first == null
    {
      first := null;
    }
  }

  class Node<T> {
    const item: T
    var next: Node?<T>
    var prev: Address<T>

    // LIST_ENTRY_INIT
    constructor (item: T)
      ensures this.item == item && next == null && prev == Nowhere
    {
      this.item := item;
      next := null;
      prev := Nowhere;
    }
  }

  // No element twice. Recursive, so that a proof takes the pairs it needs from DistinctAt.
  ghost predicate Distinct<T>(s: seq<T>) {
    s == [] || (s[|s| - 1] !in s[..|s| - 1] && Distinct(s[..|s| - 1]))
  }

  lemma {:induction false} DistinctAt<T>(s: seq<T>, i: nat, j: nat)
    requires Distinct(s) && i < |s| && j < |s| && i != j
    ensures s[i] != s[j]
  {
    var r := s[..|s| - 1];
    if i < |r| && j < |r| {
      DistinctAt(r, i, j);
    } else {
      assert s[if i < j then i else j] in r;
    }
  }

  // An element stands at one place only.
  lemma Once<T>(s: seq<T>, i: nat)
    requires Distinct(s) && i < |s|
    ensures forall k :: 0 <= k < |s| && k != i ==> s[k] != s[i]
  {
    forall k | 0 <= k < |s| && k != i
      ensures s[k] != s[i]
    {
      DistinctAt(s, k, i);
    }
  }

  // What the pointer after position i of s must hold; position -1 is the head's.
  ghost function After<T>(s: seq<Node<T>>, i: int): Node?<T>
    requires -1 <= i < |s|
  {
    if i + 1 < |s| then s[i + 1] else null
  }

  ghost function Reaching<T>(h: Head<T>, s: seq<Node<T>>, i: nat): Address<T>
    requires i <= |s|
  {
    if i == 0 then FirstOf(h) else NextOf(s[i - 1])
  }

  ghost predicate IsList<T>(h: Head<T>, s: seq<Node<T>>)
    reads h, s
  {
    && Distinct(s)
    && h.first == After(s, -1)
    && (forall i {:trigger s[i].next} :: 0 <= i < |s| ==> s[i].next == After(s, i))
    && (forall i {:trigger s[i].prev} :: 0 <= i < |s| ==> s[i].prev == Reaching(h, s, i))
  }

  function RemoveAt<T>(s: seq<T>, i: nat): (t: seq<T>)
    requires i < |s|
    ensures |t| == |s| - 1
  {
    s[..i] + s[i + 1..]
  }

  function InsertAt<T>(s: seq<T>, i: nat, x: T): (t: seq<T>)
    requires i <= |s|
    ensures |t| == |s| + 1 && t[i] == x
  {
    s[..i] + [x] + s[i..]
  }

  lemma {:induction false} DistinctRemove<T>(s: seq<T>, i: nat)
    requires Distinct(s) && i < |s|
    ensures Distinct(RemoveAt(s, i))
  {
    var r := s[..|s| - 1];
    if i == |r| {
      assert RemoveAt(s, i) == r;
    } else {
      DistinctRemove(r, i);
      assert RemoveAt(s, i)[..|s| - 2] == RemoveAt(r, i);
    }
  }

  // The list without its element x.
  function Minus<T(==)>(s: seq<T>, x: T): (t: seq<T>) {
    if s == [] then []
    else if s[|s| - 1] == x then s[..|s| - 1]
    else Minus(s[..|s| - 1], x) + [s[|s| - 1]]
  }

  lemma {:induction false} MinusAt<T>(s: seq<T>, i: nat)
    requires Distinct(s) && i < |s|
    ensures Minus(s, s[i]) == RemoveAt(s, i)
  {
    if i < |s| - 1 {
      DistinctAt(s, i, |s| - 1);
      MinusAt(s[..|s| - 1], i);
    }
  }

  lemma {:induction false} DistinctInsert<T>(s: seq<T>, i: nat, x: T)
    requires Distinct(s) && i <= |s| && x !in s
    ensures Distinct(InsertAt(s, i, x))
  {
    if i == |s| {
      assert InsertAt(s, i, x)[..|s|] == s;
    } else {
      DistinctInsert(s[..|s| - 1], i, x);
      assert InsertAt(s, i, x)[..|s|] == InsertAt(s[..|s| - 1], i, x);
      assert s == s[..|s| - 1] + [s[|s| - 1]];
    }
  }

  // t is s with position i taken out.
  ghost predicate TakesOut<T>(s: seq<T>, i: nat, t: seq<T>) {
    && i < |s| == |t| + 1
    && (forall j :: 0 <= j < i ==> t[j] == s[j])
    && (forall j :: i <= j < |t| ==> t[j] == s[j + 1])
  }

  // t is s with x put in at position i.
  ghost predicate PutsIn<T>(s: seq<T>, i: nat, x: T, t: seq<T>) {
    && i <= |s| == |t| - 1
    && t[i] == x
    && (forall j :: 0 <= j < i ==> t[j] == s[j])
    && (forall j :: i < j < |t| ==> t[j] == s[j - 1])
  }

  lemma TakesOutRemoveAt<T>(s: seq<T>, i: nat)
    requires i < |s| && Distinct(s)
    ensures TakesOut(s, i, RemoveAt(s, i)) && Distinct(RemoveAt(s, i))
  {
    DistinctRemove(s, i);
  }

  lemma PutsInInsertAt<T>(s: seq<T>, i: nat, x: T)
    requires i <= |s| && Distinct(s) && x !in s
    ensures PutsIn(s, i, x, InsertAt(s, i, x)) && Distinct(InsertAt(s, i, x))
  {
    DistinctInsert(s, i, x);
  }

  // *where = v
  method Store<T>(where: Address<T>, v: Node?<T>)
    requires where != Nowhere
    modifies match where case FirstOf(h) => {h as object} case NextOf(n) => {n as object} case Nowhere => {}
    ensures where.FirstOf? ==> where.head.first == v
    ensures where.NextOf? ==> where.node.next == v && where.node.prev == old(where.node.prev)
  {
    match where
    case FirstOf(h) => h.first := v;
    case NextOf(n) => n.next := v;
  }

  // Each macro takes the list before (s) and the list after (t) as ghosts.

  method InsertHead<T>(h: Head<T>, elm: Node<T>, ghost s: seq<Node<T>>, ghost t: seq<Node<T>>)
    requires IsList(h, s) && elm !in s
    requires PutsIn(s, 0, elm, t) && Distinct(t)
    modifies h, s, elm
    ensures IsList(h, t)
  {
    if |t| > 1 { Once(t, 1); }
    elm.next := h.first;
    if elm.next != null {
      h.first.prev := NextOf(elm);
    }
    h.first := elm;
    elm.prev := FirstOf(h);
    forall k | 0 <= k < |t|
      ensures t[k].next == After(t, k) && t[k].prev == Reaching(h, t, k)
    {
    }
  }

  method InsertAfter<T>(listelm: Node<T>, elm: Node<T>, ghost h: Head<T>, ghost s: seq<Node<T>>, ghost i: nat,
      ghost t: seq<Node<T>>)
    requires IsList(h, s) && elm !in s && i < |s| && s[i] == listelm
    requires PutsIn(s, i + 1, elm, t) && Distinct(t)
    modifies s, elm
    ensures IsList(h, t)
  {
    Once(t, i);
    if i + 2 < |t| { Once(t, i + 2); }
    elm.next := listelm.next;
    if elm.next != null {
      listelm.next.prev := NextOf(elm);
    }
    listelm.next := elm;
    elm.prev := NextOf(listelm);
    forall k | 0 <= k < |t|
      ensures t[k].next == After(t, k) && t[k].prev == Reaching(h, t, k)
    {
    }
  }

  method InsertBefore<T>(listelm: Node<T>, elm: Node<T>, ghost h: Head<T>, ghost s: seq<Node<T>>, ghost i: nat,
      ghost t: seq<Node<T>>)
    requires IsList(h, s) && elm !in s && i < |s| && s[i] == listelm
    requires PutsIn(s, i, elm, t) && Distinct(t)
    modifies h, s, elm
    ensures IsList(h, t)
  {
    Once(s, i);
    if i > 0 { Once(s, i - 1); }
    elm.prev := listelm.prev;
    elm.next := listelm;
    Store(listelm.prev, elm);
    listelm.prev := NextOf(elm);
    PutBefore(h, s, i, elm, t);
  }

  // The links as InsertBefore leaves them are those of t.
  lemma PutBefore<T>(h: Head<T>, s: seq<Node<T>>, i: nat, elm: Node<T>, t: seq<Node<T>>)
    requires i < |s| && elm !in s && PutsIn(s, i, elm, t) && Distinct(t)
    requires h.first == if i == 0 then elm else s[0]
    requires elm.next == s[i] && elm.prev == Reaching(h, s, i)
    requires forall j {:trigger s[j].next} :: 0 <= j < |s| ==> s[j].next == if j == i - 1 then elm else After(s, j)
    requires forall j {:trigger s[j].prev} :: 0 <= j < |s| ==>
               s[j].prev == if j == i then NextOf(elm) else Reaching(h, s, j)
    ensures IsList(h, t)
  {
    forall k | 0 <= k < |t|
      ensures t[k].next == After(t, k) && t[k].prev == Reaching(h, t, k)
    {
      if k < i {
        assert t[k] == s[k];
      } else if k > i {
        assert t[k] == s[k - 1];
      }
    }
  }

  /** LIST_REMOVE is given the node alone; the list it leaves is found through `le_prev`.
      The node's own two links are left as they were. */
  method Remove<T>(elm: Node<T>, ghost h: Head<T>, ghost s: seq<Node<T>>, ghost i: nat, ghost t: seq<Node<T>>)
    requires IsList(h, s) && i < |s| && s[i] == elm
    requires TakesOut(s, i, t) && Distinct(t)
    modifies h, s
    ensures IsList(h, t)
    ensures elm.next == old(elm.next) && elm.prev == old(elm.prev)
  {
    Once(s, i);
    if i > 0 { Once(s, i - 1); }
    if i + 1 < |s| { Once(s, i + 1); }
    if elm.next != null {
      elm.next.prev := elm.prev;
    }
    Store(elm.prev, elm.next);
    TakenOut(h, s, i, t);
  }

  // The links as Remove leaves them are those of t.
  lemma TakenOut<T>(h: Head<T>, s: seq<Node<T>>, i: nat, t: seq<Node<T>>)
    requires TakesOut(s, i, t) && Distinct(t)
    requires h.first == if i == 0 then After(s, 0) else s[0]
    requires forall j {:trigger s[j].next} :: 0 <= j < |s| && j != i ==>
               s[j].next == After(s, if j == i - 1 then i else j)
    requires forall j {:trigger s[j].prev} :: 0 <= j < |s| && j != i ==>
               s[j].prev == Reaching(h, s, if j == i + 1 then i else j)
    ensures IsList(h, t)
  {
    forall k | 0 <= k < |t|
      ensures t[k].next == After(t, k) && t[k].prev == Reaching(h, t, k)
    {
      if k < i {
        assert t[k] == s[k];
      } else {
        assert t[k] == s[k + 1];
      }
    }
  }

  lemma {:induction false} SamePrefix<T>(h: Head<T>, s: seq<Node<T>>, t: seq<Node<T>>, n: nat)
    requires IsList(h, s) && IsList(h, t) && n <= |s|
    ensures n <= |t| && s[..n] == t[..n]
  {
    if n > 0 {
      SamePrefix(h, s, t, n - 1);
      if n > 1 {
        assert s[n - 2] == s[..n - 1][n - 2] == t[..n - 1][n - 2] == t[n - 2];
        assert s[n - 2].next == After(s, n - 2) && t[n - 2].next == After(t, n - 2);
      }
      assert After(s, n - 2) == After(t, n - 2);
    }
  }

  /** The links determine the list: a head carries at most one sequence of nodes. */
  lemma ListUnique<T>(h: Head<T>, s: seq<Node<T>>, t: seq<Node<T>>)
    requires IsList(h, s) && IsList(h, t)
    ensures s == t
  {
    SamePrefix(h, s, t, |s|);
    SamePrefix(h, t, s, |t|);
  }
}
