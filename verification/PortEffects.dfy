/**
 What each operation on a shared descriptor does to the ports, port by port: to the one it is
 about, and to all others, which keep their state and the order in which they take turns.
 */
module PortEffects {
  import opened Basics
  import opened CircularLinkedList
  import opened SharedPorts

  /** All ports but `p` are as they were, and take turns in the same order. */
  ghost predicate OthersSame(s: Shared, s': Shared, p: Port) {
    && s'.disableTokens == s.disableTokens
    && (forall q :: q != p ==> (q in s'.ports <==> q in s.ports))
    && (forall q :: q != p && q in s.ports ==> s'.ports[q] == s.ports[q])
    && RemoveFirst(s'.active, p) == RemoveFirst(s.active, p)
  }

  /** `p` takes turns exactly if it is ready; it keeps its place, or comes last if it has become ready. */
  ghost predicate TakesTurns(s: Shared, s': Shared, p: Port) {
    && (p in s'.active <==> p in s'.ports && s'.ports[p].reading && s'.ports[p].tokens > 0)
    && (p in s'.active ==> s'.active == if p in s.active then s.active else s.active + [p])
  }

  lemma {:induction false} RemoveFirstTwice<X>(a: seq<X>, p: X)
    requires NoDuplicates(a)
    ensures RemoveFirst(RemoveFirst(a, p), p) == RemoveFirst(a, p)
  {
    if a != [] {
      NoDuplicatesTail(a);
      if a[0] == p {
        RemoveFirstAbsent(a[1..], p);
      } else {
        RemoveFirstTwice(a[1..], p);
      }
    }
  }

  lemma {:induction false} RemoveFirstLast<X>(a: seq<X>, p: X)
    requires p !in a
    ensures RemoveFirst(a + [p], p) == a && RemoveFirst(a, p) == a
  {
    if a != [] {
      assert a[0] in a && (a + [p])[1..] == a[1..] + [p];
      RemoveFirstLast(a[1..], p);
    }
  }

  /** A new port starts with four tokens, a known one keeps its tokens; its flag is the one asked for. */
  lemma SetReadingEffect(s: Shared, p: Port, reading: bool)
    requires Agrees(s)
    ensures var s' := SetReading(s, p, reading);
            && OthersSame(s, s', p) && TakesTurns(s, s', p)
            && p in s'.ports && s'.ports[p] == PortState(reading, if p in s.ports then s.ports[p].tokens else 4)
  {
    SetReadingAgrees(s, p, reading);
    RemoveFirstTwice(s.active, p);
    assert p in s.active <==> IsReady(s, p);
    if p !in s.active {
      RemoveFirstLast(s.active, p);
    }
  }

  lemma RemovePortEffect(s: Shared, p: Port)
    requires Agrees(s)
    ensures var s' := RemovePort(s, p);
            OthersSame(s, s', p) && p !in s'.ports && p !in s'.active
  {
    RemovePortAgrees(s, p);
    RemoveFirstTwice(s.active, p);
  }

  lemma RemoveAllPortsEffect(s: Shared, p: Port)
    ensures var s' := RemoveAllPorts(s);
            p !in s'.ports && p !in s'.active && s'.disableTokens == s.disableTokens
  {
  }

  /** The first port in the order pays one token, if tokens count, and comes last. */
  lemma NotifyNextEffect(s: Shared)
    requires Agrees(s) && s.active != []
    ensures var s', p := NotifyNext(s), s.active[0];
            && OthersSame(s, s', p)
            && p in s.ports && p in s'.ports
            && s'.ports[p] == PortState(true, s.ports[p].tokens - (if s.disableTokens then 0 else 1))
            && s'.active == s.active[1..] + (if s'.ports[p].tokens > 0 then [p] else [])
  {
    var p := s.active[0];
    assert p in s.active && IsReady(s, p);
    NoDuplicatesTail(s.active);
    RemoveFirstLast(s.active[1..], p);
    assert s.active[1..] + [] == s.active[1..];
  }

  lemma NotifyNobodyEffect(s: Shared)
    requires s.active == []
    ensures NotifyNext(s) == s && NextPort(s) == 0
  {
  }

  lemma {:induction false} OnlyReadyAreReady(a: seq<Port>, ports: map<Port, PortState>, p: Port)
    ensures p in OnlyReady(a, ports) ==> p in ports && ports[p].IsReady()
  {
    if a != [] {
      OnlyReadyAreReady(a[1..], ports, p);
    }
  }

  lemma PlaceCons(x: Port, rest: seq<Port>, p: Port)
    ensures Place([x] + rest, p) == if x == p then 0 else 1 + Place(rest, p)
  {
    assert ([x] + rest)[1..] == rest;
  }

  lemma {:induction false} OnlyReadyOrder(a: seq<Port>, ports: map<Port, PortState>, p: Port, q: Port)
    requires p in OnlyReady(a, ports) && q in OnlyReady(a, ports)
    ensures Place(OnlyReady(a, ports), p) < Place(OnlyReady(a, ports), q) <==> Place(a, p) < Place(a, q)
  {
    hide Place;
    var x, rest, kept := a[0], a[1..], OnlyReady(a[1..], ports);
    assert a == [x] + rest;
    PlaceCons(x, rest, p);
    PlaceCons(x, rest, q);
    if x in ports && ports[x].IsReady() {
      PlaceCons(x, kept, p);
      PlaceCons(x, kept, q);
    } else {
      OnlyReadyAreReady(a, ports, x);
      assert OnlyReady(a, ports) == kept;
    }
    if x != p && x != q {
      assert p in kept && q in kept;
      OnlyReadyOrder(rest, ports, p, q);
    }
  }

  /** Every port pays one token, if tokens count; who still has one goes on taking turns in the same order. */
  lemma NotifyAllEffect(s: Shared, p: Port, q: Port)
    requires Agrees(s)
    ensures var s' := NotifyAll(s);
            && s'.disableTokens == s.disableTokens
            && (p in s'.ports <==> p in s.ports)
            && (p in s.ports ==>
                  s'.ports[p] ==
                  PortState(s.ports[p].reading, s.ports[p].tokens - (if s.disableTokens then 0 else 1)))
            && (p in s'.active <==> p in s'.ports && s'.ports[p].reading && s'.ports[p].tokens > 0)
            && (p in s'.active && q in s'.active ==>
                  (Place(s'.active, p) < Place(s'.active, q) <==> Place(s.active, p) < Place(s.active, q)))
  {
    NotifyAllAgrees(s);
    var s' := NotifyAll(s);
    assert p in s'.active <==> IsReady(s', p);
    if p in s'.active && q in s'.active {
      OnlyReadyOrder(s.active, s'.ports, p, q);
    }
  }

  /** The tokens are added, if tokens count. */
  lemma ReturnTokensEffect(s: Shared, p: Port, count: nat)
    requires Agrees(s) && p in s.ports
    ensures var s' := ReturnTokens(s, p, count);
            && OthersSame(s, s', p) && TakesTurns(s, s', p)
            && p in s'.ports
            && s'.ports[p] == PortState(s.ports[p].reading, s.ports[p].tokens + (if s.disableTokens then 0 else count))
  {
    ReturnTokensAgrees(s, p, count);
    assert p in s.active <==> IsReady(s, p);
    if p !in s.active {
      RemoveFirstLast(s.active, p);
    }
  }
}
