/**
 The two kinds of descriptors as objects: one port with a budget, or many ports whose ready
 ones are cached in a circular list. Each method is tied to its counterpart on values.
 */
module DescriptorInfo {
  import opened Basics
  import opened CircularLinkedList
  import opened SharedPorts
  import EpollProtocol

  class PortEntry {
    const port: Port
    var reading: bool
    var tokens: int

    constructor (port: Port, reading: bool, tokens: int)
      ensures this.port == port && this.reading == reading && this.tokens == tokens
    {
      this.port, this.reading, this.tokens := port, reading, tokens;
    }

    ghost function State(): PortState
      reads this
    {
      PortState(reading, tokens)
    }

    predicate IsReady()
      reads this
    {
      tokens > 0 && reading
    }
  }

  /** The ports of a sequence of entries. */
  ghost function PortsOf(items: seq<PortEntry>): (r: seq<Port>)
    ensures |r| == |items|
    ensures forall i :: 0 <= i < |items| ==> r[i] == items[i].port
  {
    seq(|items|, i requires 0 <= i < |items| => items[i].port)
  }

  lemma PortsOfRotated(items: seq<PortEntry>)
    ensures PortsOf(Rotated(items)) == Rotated(PortsOf(items))
    ensures forall e :: e in Rotated(items) <==> e in items
  {
    RotatedSame(items);
  }

  lemma PortsOfHas(items: seq<PortEntry>)
    ensures forall e :: e in items ==> e.port in PortsOf(items)
  {
    forall e | e in items
      ensures e.port in PortsOf(items)
    {
      var i :| 0 <= i < |items| && items[i] == e;
      assert PortsOf(items)[i] == e.port;
    }
  }

  lemma EntriesOnce(items: seq<PortEntry>)
    requires NoDuplicates(PortsOf(items))
    ensures NoDuplicates(items)
  {
    forall i, j | 0 <= i < j < |items|
      ensures items[i] != items[j]
    {
      assert PortsOf(items)[i] != PortsOf(items)[j];
    }
  }

  lemma PortsOfTail(items: seq<PortEntry>)
    requires items != []
    ensures PortsOf(items[1..]) == PortsOf(items)[1..]
    ensures forall e :: e in items[1..] ==> e in items
  {
  }

  lemma {:induction false} PortsOfRemoveFirst(items: seq<PortEntry>, e: PortEntry)
    requires forall x :: x in items && x.port == e.port ==> x == e
    ensures PortsOf(RemoveFirst(items, e)) == RemoveFirst(PortsOf(items), e.port)
    ensures forall x :: x in RemoveFirst(items, e) ==> x in items
  {
    if items != [] {
      assert items[0] in items;
      assert PortsOf(items)[1..] == PortsOf(items[1..]);
      if items[0] != e {
        PortsOfRemoveFirst(items[1..], e);
        assert PortsOf([items[0]] + RemoveFirst(items[1..], e)) ==
               [items[0].port] + PortsOf(RemoveFirst(items[1..], e));
      }
    }
  }

  class DescriptorInfoMultiple {
    var tokensMap: map<Port, PortEntry>
    const activeReaders: CircularLinkedList<PortEntry>
    const disableTokens: bool
    ghost var model: Shared

    ghost function Repr(): set<object>
      reads this, activeReaders
    {
      activeReaders.Repr() + tokensMap.Values + {this}
    }

    /** The list holds entries of the map; its ports are the cache of `model`. */
    ghost predicate Linked()
      reads this, activeReaders, activeReaders.nodes
    {
      && activeReaders.Valid()
      && this !in activeReaders.Repr()
      && (forall p :: p in tokensMap ==> tokensMap[p] !in activeReaders.Repr() && tokensMap[p].port == p)
      && (forall e :: e in activeReaders.items ==> e.port in tokensMap && tokensMap[e.port] == e)
      && model.active == PortsOf(activeReaders.items)
    }

    /** Outside `except`, the entries of the map are the ports of `model`. */
    ghost predicate Mirrored(except: set<Port>)
      reads this, tokensMap.Values
    {
      && model.ports.Keys == tokensMap.Keys
      && (forall p :: p in tokensMap && p !in except ==> model.ports[p] == tokensMap[p].State())
      && model.disableTokens == disableTokens
    }

    ghost predicate Valid()
      reads this, activeReaders, activeReaders.nodes, tokensMap.Values
    {
      Linked() && Mirrored({}) && Agrees(model)
    }

    constructor (disableTokens: bool)
      ensures Valid() && fresh(Repr())
      ensures model == New(disableTokens)
    {
      this.disableTokens := disableTokens;
      tokensMap := map[];
      activeReaders := new CircularLinkedList<PortEntry>();
      model := New(disableTokens);
    }

    /** Puts an entry into the cache or takes it out, if its readiness has changed. */
    method Recache(pentry: PortEntry, wasReady: bool, ghost active: seq<Port>)
      requires Linked() && pentry.port in tokensMap && tokensMap[pentry.port] == pentry
      requires active ==
               if wasReady && !pentry.IsReady() then RemoveFirst(model.active, pentry.port)
               else if !wasReady && pentry.IsReady() then model.active + [pentry.port]
               else model.active
      modifies activeReaders.Repr()
      ensures activeReaders.Valid() && fresh(activeReaders.Repr() - old(activeReaders.Repr()))
      ensures wasReady || !pentry.IsReady() ==> activeReaders.Repr() <= old(activeReaders.Repr())
      ensures PortsOf(activeReaders.items) == active
      ensures forall e :: e in activeReaders.items ==> e == pentry || e in old(activeReaders.items)
    {
      var isReady := pentry.IsReady();
      if wasReady && !isReady {
        activeReaders.Remove(pentry);
        PortsOfRemoveFirst(old(activeReaders.items), pentry);
      } else if !wasReady && isReady {
        var _ := activeReaders.Add(pentry);
      }
    }

    /** The cache follows an entry that has just changed; `next` is the state this leads to. */
    method Refresh(pentry: PortEntry, wasReady: bool, ghost next: Shared)
      requires pentry.port in tokensMap && tokensMap[pentry.port] == pentry
      requires Linked() && Mirrored({pentry.port})
      requires next.ports == model.ports[pentry.port := pentry.State()] && next.disableTokens == disableTokens
      requires next.active ==
               if wasReady && !pentry.IsReady() then RemoveFirst(model.active, pentry.port)
               else if !wasReady && pentry.IsReady() then model.active + [pentry.port]
               else model.active
      requires Agrees(next)
      modifies this`model, activeReaders.Repr()
      ensures Valid() && fresh(activeReaders.Repr() - old(activeReaders.Repr()))
      ensures wasReady || !pentry.IsReady() ==> activeReaders.Repr() <= old(activeReaders.Repr())
      ensures model == next
    {
      Recache(pentry, wasReady, next.active);
      model := next;
    }

    method UpdateReading(pentry: PortEntry, isReading: bool)
      requires Valid() && pentry.port in tokensMap && tokensMap[pentry.port] == pentry
      modifies this`model, activeReaders.Repr(), pentry
      ensures Valid() && fresh(activeReaders.Repr() - old(activeReaders.Repr()))
      ensures model == SetReading(old(model), pentry.port, isReading)
    {
      SetReadingAgrees(model, pentry.port, isReading);
      var wasReady := pentry.IsReady();
      pentry.reading := isReading;
      Refresh(pentry, wasReady, SetReading(model, pentry.port, isReading));
    }

    method InsertPort(port: Port, isReading: bool)
      requires Valid() && port !in tokensMap
      modifies this, activeReaders.Repr()
      ensures Valid() && fresh(Repr() - old(Repr()))
      ensures model == SetReading(old(model), port, isReading)
    {
      SetReadingAgrees(model, port, isReading);
      ghost var next := SetReading(model, port, isReading);
      var pentry := new PortEntry(port, isReading, SHARED_TOKENS);
      tokensMap := tokensMap[port := pentry];
      model := model.(ports := next.ports);
      Refresh(pentry, false, next);
    }

    /** Adds or updates a port; `mask` is 0 or the in-event bit. */
    method SetPortAndMask(port: Port, mask: nat)
      requires Valid() && mask <= EpollProtocol.IN_EVENT
      modifies Repr()
      ensures Valid() && fresh(Repr() - old(Repr()))
      ensures model == SetReading(old(model), port, mask == EpollProtocol.IN_EVENT)
    {
      if port !in tokensMap {
        InsertPort(port, mask == EpollProtocol.IN_EVENT);
      } else {
        assert tokensMap[port] in tokensMap.Values;
        UpdateReading(tokensMap[port], mask == EpollProtocol.IN_EVENT);
      }
    }

    /** Takes an entry out of the cache, if it is in it. */
    method Uncache(pentry: PortEntry, ghost active: seq<Port>)
      requires Linked() && pentry.port in tokensMap && tokensMap[pentry.port] == pentry
      requires active == if pentry.IsReady() then RemoveFirst(model.active, pentry.port) else model.active
      modifies activeReaders.Repr()
      ensures activeReaders.Valid() && activeReaders.Repr() <= old(activeReaders.Repr())
      ensures PortsOf(activeReaders.items) == active
      ensures forall e :: e in activeReaders.items ==> e in old(activeReaders.items) && e.port in active
    {
      if pentry.IsReady() {
        activeReaders.Remove(pentry);
        PortsOfRemoveFirst(old(activeReaders.items), pentry);
      }
      PortsOfHas(activeReaders.items);
    }

    /** Removes a port, if it is known, from the map and from the cache. */
    method RemovePort(port: Port)
      requires Valid()
      modifies this, activeReaders.Repr()
      ensures Valid() && Repr() <= old(Repr())
      ensures model == SharedPorts.RemovePort(old(model), port)
    {
      if port in tokensMap {
        RemovePortAgrees(model, port);
        ghost var next := SharedPorts.RemovePort(model, port);
        Uncache(tokensMap[port], next.active);
        tokensMap := tokensMap - {port};
        model := next;
      }
    }

    /** The list holds entries of these ports only, and each once. */
    ghost predicate HoldsOnly(ports: set<Port>)
      reads this, activeReaders
    {
      && NoDuplicates(activeReaders.items)
      && forall e :: e in activeReaders.items ==> e.port in ports && e.port in tokensMap && tokensMap[e.port] == e
    }

    lemma SomeHeld(ports: set<Port>)
      requires HoldsOnly(ports) && activeReaders.items != []
      ensures exists p :: p in ports
    {
      assert activeReaders.items[0] in activeReaders.items;
    }

    /** Takes the entry of one port out of the list. */
    method UncacheOne(p: Port, ghost ports: set<Port>)
      requires activeReaders.Valid() && this !in activeReaders.Repr() && p in tokensMap && HoldsOnly(ports)
      modifies activeReaders.Repr()
      ensures activeReaders.Valid() && activeReaders.Repr() <= old(activeReaders.Repr())
      ensures HoldsOnly(ports - {p})
    {
      var pentry := tokensMap[p];
      activeReaders.Remove(pentry);
      if pentry in old(activeReaders.items) {
        RemoveFirstOnce(old(activeReaders.items), pentry);
      } else {
        RemoveFirstAbsent(old(activeReaders.items), pentry);
      }
    }

    /** Takes every entry of the map out of the list, which leaves nothing in it to be deleted a second time. */
    method UncacheAll()
      requires activeReaders.Valid() && this !in activeReaders.Repr() && HoldsOnly(tokensMap.Keys)
      modifies activeReaders.Repr()
      ensures activeReaders.Valid() && activeReaders.Repr() <= old(activeReaders.Repr())
      ensures activeReaders.items == []
    {
      var left := tokensMap.Keys;
      while exists q :: q in left
        invariant left <= tokensMap.Keys && HoldsOnly(left)
        invariant activeReaders.Valid() && activeReaders.Repr() <= old(activeReaders.Repr())
        decreases left
      {
        var p :| p in left;
        UncacheOne(p, left);
        left := left - {p};
      }
      if activeReaders.items != [] {
        SomeHeld(left);
      }
    }

    method RemoveAllPorts()
      requires Valid()
      modifies this, activeReaders.Repr()
      ensures Valid() && Repr() <= old(Repr())
      ensures model == SharedPorts.RemoveAllPorts(old(model))
    {
      EntriesOnce(activeReaders.items);
      UncacheAll();
      tokensMap := map[];
      activeReaders.RemoveAll();
      model := SharedPorts.RemoveAllPorts(model);
    }

    /** Drops the first entry of the cache, or moves it to the end. */
    method MoveHead(drop: bool)
      requires Linked() && activeReaders.items != []
      modifies activeReaders.Repr()
      ensures activeReaders.Valid() && activeReaders.Repr() <= old(activeReaders.Repr())
      ensures PortsOf(activeReaders.items) == if drop then model.active[1..] else Rotated(model.active)
      ensures forall e :: e in activeReaders.items ==> e in old(activeReaders.items)
    {
      hide Rotated, PortsOf;
      if drop {
        activeReaders.RemoveHead();
        PortsOfTail(old(activeReaders.items));
      } else {
        activeReaders.Rotate();
        PortsOfRotated(old(activeReaders.items));
      }
    }

    /** The head of the cache, just charged, leaves it or goes to its end. */
    method AdvanceHead(pentry: PortEntry, ghost next: Shared)
      requires Linked() && Mirrored({pentry.port})
      requires activeReaders.items != [] && activeReaders.items[0] == pentry
      requires pentry.port in model.ports
      requires next.ports == model.ports[pentry.port := pentry.State()] && next.disableTokens == disableTokens
      requires next.active == if pentry.tokens <= 0 then model.active[1..] else Rotated(model.active)
      requires Agrees(next)
      modifies this`model, activeReaders.Repr()
      ensures Valid() && activeReaders.Repr() <= old(activeReaders.Repr())
      ensures model == next
    {
      MoveHead(pentry.tokens <= 0);
      model := next;
    }

    /** The port whose turn it is, charged one token; 0 if no port is ready. */
    method NextNotifyDartPort() returns (port: Port)
      requires Valid()
      modifies Repr()
      ensures Valid() && Repr() <= old(Repr())
      ensures port == NextPort(old(model))
      ensures model == NotifyNext(old(model))
    {
      var any := activeReaders.HasHead();
      if !any {
        return ILLEGAL_PORT;
      }
      NotifyNextAgrees(model);
      var pentry := activeReaders.Head();
      assert pentry in activeReaders.items && model.active[0] == pentry.port;
      if !disableTokens {
        pentry.tokens := pentry.tokens - 1;
      }
      AdvanceHead(pentry, NotifyNext(model));
      return pentry.port;
    }

    /** Gives `count` tokens back to a known port, which may become ready. */
    method ReturnTokens(port: Port, count: nat)
      requires Valid() && port in tokensMap
      modifies Repr()
      ensures Valid() && fresh(Repr() - old(Repr()))
      ensures model == SharedPorts.ReturnTokens(old(model), port, count)
    {
      ReturnTokensAgrees(model, port, count);
      var pentry := tokensMap[port];
      assert pentry in tokensMap.Values;
      var wasReady := pentry.IsReady();
      if !disableTokens {
        pentry.tokens := pentry.tokens + count;
      }
      Refresh(pentry, wasReady, SharedPorts.ReturnTokens(model, port, count));
    }

    /** Charges one port of a broadcast that has reached the ports in `done` (`was` is the state before it). */
    method ChargePort(port: Port, ghost was: Shared, ghost done: set<Port>)
      requires Valid() && Agrees(was) && was.disableTokens == disableTokens
      requires model == ChargeSome(was, done) && port in tokensMap && port !in done
      modifies this`model, activeReaders.Repr(), tokensMap[port]
      ensures Valid() && activeReaders.Repr() <= old(activeReaders.Repr())
      ensures model == ChargeSome(was, done + {port}) && tokensMap == old(tokensMap)
    {
      ChargeSomeStep(was, done, port);
      var pentry := tokensMap[port];
      var wasReady := pentry.IsReady();
      if !disableTokens {
        pentry.tokens := pentry.tokens - 1;
      }
      Refresh(pentry, wasReady, ChargeSome(was, done + {port}));
    }

    /** Charges every port one token and returns the ports to post to. */
    method NotifyAllDartPorts() returns (posts: set<Port>)
      requires Valid()
      modifies Repr()
      ensures Valid() && Repr() <= old(Repr())
      ensures posts == old(model).ports.Keys
      ensures model == NotifyAll(old(model))
    {
      ghost var was := model;
      ChargeSomeStart(was);
      posts := {};
      var ports := tokensMap.Keys;
      while exists p :: p in ports && p !in posts
        invariant posts <= ports && tokensMap == old(tokensMap)
        invariant Valid() && model == ChargeSome(was, posts)
        invariant activeReaders.Repr() <= old(activeReaders.Repr())
        decreases ports - posts
      {
        var p :| p in ports && p !in posts;
        assert tokensMap[p] in tokensMap.Values;
        ChargePort(p, was, posts);
        posts := posts + {p};
      }
      assert posts == ports;
      ChargeSomeEnd(was, posts);
    }

    method Mask() returns (mask: nat)
      requires Valid()
      ensures mask == EpollProtocol.Mask(EpollProtocol.Multiple(model))
    {
      var any := activeReaders.HasHead();
      mask := if any then EpollProtocol.IN_EVENT else 0;
    }
  }

  class DescriptorInfoSingle {
    var port: Port
    var tokens: int
    var mask: nat
    const disableTokens: bool

    constructor (disableTokens: bool)
      ensures port == ILLEGAL_PORT && tokens == EpollProtocol.SINGLE_TOKENS && mask == 0
      ensures this.disableTokens == disableTokens
    {
      port, tokens, mask := ILLEGAL_PORT, EpollProtocol.SINGLE_TOKENS, 0;
      this.disableTokens := disableTokens;
    }

    ghost function Model(): EpollProtocol.Descriptor
      reads this
    {
      EpollProtocol.Single(port, tokens, mask)
    }

    method SetPortAndMask(port: Port, mask: nat)
      requires this.port == ILLEGAL_PORT || this.port == port
      modifies this
      ensures Model() == EpollProtocol.SetPortAndMask(old(Model()), port, mask)
    {
      this.port, this.mask := port, mask;
    }

    method RemovePort(port: Port)
      requires this.port == ILLEGAL_PORT || this.port == port
      modifies this
      ensures Model() == EpollProtocol.RemoveListener(old(Model()), port)
    {
      this.port, this.mask := ILLEGAL_PORT, 0;
    }

    method NextNotifyDartPort() returns (notified: Port)
      modifies this
      ensures notified == old(port)
      ensures Model() == if disableTokens then old(Model()) else EpollProtocol.ChargeNext(old(Model()))
    {
      if !disableTokens {
        tokens := tokens - 1;
      }
      return port;
    }

    method NotifyAllDartPorts() returns (posts: set<Port>)
      modifies this
      ensures posts == EpollProtocol.Ports(old(Model()))
      ensures Model() == if disableTokens then old(Model()) else EpollProtocol.ChargeAll(old(Model()))
    {
      posts := if port != ILLEGAL_PORT then {port} else {};
      if !disableTokens {
        tokens := tokens - 1;
      }
    }

    method ReturnTokens(port: Port, count: nat)
      requires this.port == port != ILLEGAL_PORT
      modifies this
      ensures Model() == if disableTokens then old(Model()) else EpollProtocol.GiveBack(old(Model()), port, count)
    {
      if !disableTokens {
        tokens := tokens + count;
      }
    }

    method Mask() returns (r: nat)
      ensures r == EpollProtocol.Mask(Model())
    {
      if tokens <= 0 {
        return 0;
      }
      return mask;
    }
  }
}
