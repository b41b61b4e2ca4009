/**
 The circular doubly linked list that caches ready ports. `nodes` lists the entries from the
 head once around the ring; `Items` is the sequence of values it stands for.
 */
module CircularLinkedList {

  class Entry<T> {
    const t: T
    var next: Entry?<T>
    var prev: Entry?<T>

    constructor (t: T)
      ensures this.t == t && next == null && prev == null
    {
      this.t := t;
      next, prev := null, null;
    }
  }

  /** The sequence without its element at position `k`. */
  function Without<X>(s: seq<X>, k: nat): (r: seq<X>)
    requires k < |s|
    ensures |r| == |s| - 1
    ensures forall i :: 0 <= i < |r| ==> r[i] == s[if i < k then i else i + 1]
  {
    s[..k] + s[k + 1..]
  }

  /** The sequence without the first occurrence of `x`. */
  function RemoveFirst<X(==)>(s: seq<X>, x: X): seq<X> {
    if s == [] then [] else if s[0] == x then s[1..] else [s[0]] + RemoveFirst(s[1..], x)
  }

  /** The head moved to the end. */
  function Rotated<X>(s: seq<X>): seq<X> {
    if s == [] then [] else s[1..] + [s[0]]
  }

  lemma {:induction false} RemoveFirstAt<X>(s: seq<X>, x: X, k: nat)
    requires k < |s| && s[k] == x && x !in s[..k]
    ensures RemoveFirst(s, x) == Without(s, k)
  {
    if k > 0 {
      assert s[0] in s[..k];
      assert forall y :: y in s[1..][..k - 1] ==> y in s[..k];
      RemoveFirstAt(s[1..], x, k - 1);
      assert Without(s, k) == [s[0]] + Without(s[1..], k - 1);
    }
  }

  lemma {:induction false} RemoveFirstAbsent<X>(s: seq<X>, x: X)
    requires x !in s
    ensures RemoveFirst(s, x) == s
  {
    if s != [] {
      RemoveFirstAbsent(s[1..], x);
    }
  }

  /** The index after (or before) `i` on a ring of `n` places. */
  function Succ(i: nat, n: nat): (r: nat)
    requires i < n
    ensures r < n
  {
    if i == n - 1 then 0 else i + 1
  }

  /** Along `nodes`, taken as a ring, `next` and `prev` undo each other. */
  ghost predicate IsRing<T>(nodes: seq<Entry<T>>)
    reads nodes
  {
    && (forall i, j :: 0 <= i < j < |nodes| ==> nodes[i] != nodes[j])
    && (forall i :: 0 <= i < |nodes| ==> nodes[i].next == nodes[Succ(i, |nodes|)])
    && (forall i :: 0 <= i < |nodes| ==> nodes[Succ(i, |nodes|)].prev == nodes[i])
  }

  lemma RotatedRing<T>(nodes: seq<Entry<T>>)
    requires IsRing(nodes)
    ensures IsRing(Rotated(nodes))
  {
    var n, r := |nodes|, Rotated(nodes);
    assert forall i :: 0 <= i < n ==> r[i] == nodes[Succ(i, n)];
    forall i | 0 <= i < n
      ensures r[i].next == r[Succ(i, n)] && r[Succ(i, n)].prev == r[i]
    {
      assert r[Succ(i, n)] == nodes[Succ(Succ(i, n), n)];
      assert nodes[Succ(i, n)].next == nodes[Succ(Succ(i, n), n)];
    }
  }

  lemma RotatedItems<T>(nodes: seq<Entry<T>>, items: seq<T>)
    requires |nodes| == |items| > 0 && forall i :: 0 <= i < |nodes| ==> nodes[i].t == items[i]
    ensures |Rotated(nodes)| == |Rotated(items)| == |nodes|
    ensures forall i :: 0 <= i < |nodes| ==> Rotated(nodes)[i].t == Rotated(items)[i]
    ensures Rotated(nodes)[0] == nodes[Succ(0, |nodes|)]
    ensures (set n: object | n in Rotated(nodes)) == set n: object | n in nodes
  {
    assert nodes == [nodes[0]] + nodes[1..];
  }

  /** A ring except that the neighbours of place `k` point to each other. */
  ghost predicate BypassesAt<T>(nodes: seq<Entry<T>>, k: nat)
    requires k < |nodes|
    reads nodes
  {
    var n := |nodes|;
    && (forall i, j :: 0 <= i < j < n ==> nodes[i] != nodes[j])
    && (forall i :: 0 <= i < n && i != k && Succ(i, n) != k ==> nodes[i].next == nodes[Succ(i, n)])
    && (forall i :: 0 <= i < n && i != k && Succ(i, n) != k ==> nodes[Succ(i, n)].prev == nodes[i])
    && (forall i :: 0 <= i < n && Succ(i, n) == k ==> nodes[i].next == nodes[Succ(k, n)])
    && (forall i :: 0 <= i < n && Succ(i, n) == k ==> nodes[Succ(k, n)].prev == nodes[i])
  }

  lemma WithoutRing<T>(nodes: seq<Entry<T>>, k: nat)
    requires k < |nodes| && |nodes| > 1 && BypassesAt(nodes, k)
    ensures IsRing(Without(nodes, k))
  {
    var n, r := |nodes|, Without(nodes, k);
    forall i | 0 <= i < n - 1
      ensures r[i].next == r[Succ(i, n - 1)] && r[Succ(i, n - 1)].prev == r[i]
    {
      var j := if i < k then i else i + 1;
      assert r[i] == nodes[j];
      var i', j' := Succ(i, n - 1), if Succ(j, n) == k then Succ(k, n) else Succ(j, n);
      assert j' == if i' < k then i' else i' + 1;
      assert r[i'] == nodes[j'];
    }
  }

  class CircularLinkedList<T(==)> {
    var head: Entry?<T>
    ghost var nodes: seq<Entry<T>>
    ghost var items: seq<T>

    /** One ring through `head`, along which `next` and `prev` undo each other. */
    ghost predicate Valid()
      reads this, nodes
    {
      && |items| == |nodes|
      && (head == null <==> nodes == [])
      && (nodes != [] ==> head == nodes[0])
      && (forall i :: 0 <= i < |nodes| ==> nodes[i].t == items[i])
      && IsRing(nodes)
    }

    ghost function Repr(): set<object>
      reads this
    {
      (set n: object | n in nodes) + {this}
    }

    constructor ()
      ensures Valid() && items == [] && fresh(Repr())
    {
      head, nodes, items := null, [], [];
    }

    /** Appends `t`; true if the list was empty. */
    method Add(t: T) returns (wasEmpty: bool)
      requires Valid()
      modifies Repr()
      ensures Valid() && fresh(Repr() - old(Repr()))
      ensures items == old(items) + [t]
      ensures wasEmpty == (old(items) == [])
    {
      var e := new Entry(t);
      if head == null {
        e.next, e.prev := e, e;
        head := e;
        wasEmpty := true;
      } else {
        assert nodes[Succ(|nodes| - 1, |nodes|)] == head;
        e.prev := head.prev;
        e.next := head;
        e.prev.next := e;
        head.prev := e;
        wasEmpty := false;
      }
      nodes, items := nodes + [e], items + [t];
    }

    /** Drops the first element. */
    method RemoveHead()
      requires Valid() && items != []
      modifies Repr()
      ensures Valid() && Repr() <= old(Repr())
      ensures items == old(items)[1..]
    {
      var e := head;
      ghost var n := |nodes|;
      assert nodes[Succ(n - 1, n)] == head && nodes[0].next == nodes[Succ(0, n)];
      if e.next == e {
        assert n == 1;
        head := null;
      } else {
        e.prev.next := e.next;
        e.next.prev := e.prev;
        head := e.next;
      }
      nodes, items := nodes[1..], items[1..];
    }

    /** Points the neighbours of the entry at position `k` past it. */
    method Bypass(current: Entry<T>, ghost k: nat)
      requires Valid() && k < |nodes| && nodes[k] == current && |nodes| > 1
      modifies nodes
      ensures IsRing(Without(nodes, k))
      ensures current.next == nodes[Succ(k, |nodes|)]
    {
      ghost var n := |nodes|;
      ghost var p := if k == 0 then n - 1 else k - 1;
      assert Succ(p, n) == k;
      var next, prev := current.next, current.prev;
      prev.next := next;
      next.prev := prev;
      WithoutRing(nodes, k);
    }

    /** Unlinks the entry at position `k` of a list with at least two entries. */
    method Unlink(current: Entry<T>, ghost k: nat)
      requires Valid() && k < |nodes| && nodes[k] == current && |nodes| > 1
      modifies Repr()
      ensures Valid() && Repr() <= old(Repr())
      ensures items == Without(old(items), k)
    {
      Bypass(current, k);
      if current == head {
        head := head.next;
      }
      nodes, items := Without(nodes, k), Without(items, k);
    }

    /** Deletes the first occurrence of `item`, if there is one. */
    method Remove(item: T)
      requires Valid()
      modifies Repr()
      ensures Valid() && Repr() <= old(Repr())
      ensures items == RemoveFirst(old(items), item)
    {
      if head == null {
        return;
      }
      assert nodes[0].next == nodes[Succ(0, |nodes|)];
      if head == head.next {
        assert |nodes| == 1;
        if head.t == item {
          head := null;
          nodes, items := [], [];
        }
      } else {
        var current := head;
        ghost var k := 0;
        while true
          invariant Valid() && unchanged(Repr())
          invariant k < |nodes| && current == nodes[k]
          invariant item !in items[..k]
          decreases |nodes| - k
        {
          if current.t == item {
            RemoveFirstAt(items, item, k);
            Unlink(current, k);
            return;
          }
          assert items[..k + 1] == items[..k] + [items[k]];
          current := current.next;
          if current == head {
            assert k == |nodes| - 1;
            break;
          }
          k := k + 1;
        }
        assert items[..|items|] == items;
        RemoveFirstAbsent(items, item);
      }
    }

    method RemoveAll()
      requires Valid()
      modifies Repr()
      ensures Valid() && items == [] && Repr() <= old(Repr())
    {
      var any := HasHead();
      while any
        invariant Valid() && Repr() <= old(Repr())
        invariant any == (items != [])
        decreases |items|
      {
        RemoveHead();
        any := HasHead();
      }
    }

    method HasHead() returns (r: bool)
      requires Valid()
      ensures r == (items != [])
    {
      r := head != null;
    }

    method Head() returns (t: T)
      requires Valid() && items != []
      ensures t == items[0]
    {
      t := head.t;
    }

    /** Makes the second element the head; the first becomes the last. */
    method Rotate()
      requires Valid()
      modifies Repr()
      ensures Valid() && Repr() == old(Repr())
      ensures items == Rotated(old(items))
    {
      if head != null {
        RotatedRing(nodes);
        RotatedItems(nodes, items);
        assert head.next == nodes[Succ(0, |nodes|)];
        hide IsRing, Rotated, Succ;
        head := head.next;
        nodes, items := Rotated(nodes), Rotated(items);
      }
    }
  }
}
