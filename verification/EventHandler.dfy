/**
 The Linux event handler as an object: the socket map, the epoll instance it talks to, and
 the loops over interrupt messages and event batches. Each method is tied to its step on
 values, whose invariants (EpollProtocol) it keeps.
 */
module EventHandler {
  import opened Basics
  import opened SharedPorts
  import opened EpollProtocol
  import opened DescriptorInfo

  /** A pointer to a descriptor of either kind, with the operations dispatched on the kind. */
  datatype DescriptorRef =
    | One(single: DescriptorInfoSingle)
    | Many(multiple: DescriptorInfoMultiple)
  {
    ghost function Core(): set<object> {
      match this
      case One(s) => {s}
      case Many(m) => {m, m.activeReaders}
    }

    ghost function Repr(): set<object>
      reads Core()
    {
      match this
      case One(s) => {s}
      case Many(m) => m.Repr()
    }

    ghost predicate Valid()
      reads Core(), Repr()
    {
      match this
      case One(s) => !s.disableTokens
      case Many(m) => m.Valid() && !m.disableTokens
    }

    ghost function Model(): Descriptor
      reads Core()
    {
      match this
      case One(s) => s.Model()
      case Many(m) => Multiple(m.model)
    }

    method Mask() returns (mask: nat)
      requires Valid()
      ensures mask == EpollProtocol.Mask(Model())
    {
      match this
      case One(s) => mask := s.Mask();
      case Many(m) => mask := m.Mask();
    }

    method SetPortAndMask(port: Port, mask: nat)
      requires Valid()
      requires One? ==> single.port == ILLEGAL_PORT || single.port == port
      requires Many? ==> mask <= IN_EVENT
      modifies Repr()
      ensures Valid() && fresh(Repr() - old(Repr()))
      ensures Model() == EpollProtocol.SetPortAndMask(old(Model()), port, mask)
    {
      match this
      case One(s) => s.SetPortAndMask(port, mask);
      case Many(m) => m.SetPortAndMask(port, mask);
    }

    method RemovePort(port: Port)
      requires Valid()
      requires One? ==> single.port == ILLEGAL_PORT || single.port == port
      modifies Repr()
      ensures Valid() && Repr() <= old(Repr())
      ensures Model() == RemoveListener(old(Model()), port)
    {
      match this
      case One(s) => s.RemovePort(port);
      case Many(m) => m.RemovePort(port);
    }

    method NextNotifyDartPort() returns (port: Port)
      requires Valid()
      modifies Repr()
      ensures Valid() && Repr() <= old(Repr())
      ensures port == NextListener(old(Model()))
      ensures Model() == ChargeNext(old(Model()))
    {
      match this
      case One(s) => port := s.NextNotifyDartPort();
      case Many(m) => port := m.NextNotifyDartPort();
    }

    method NotifyAllDartPorts() returns (posts: set<Port>)
      requires Valid()
      modifies Repr()
      ensures Valid() && Repr() <= old(Repr())
      ensures posts == Ports(old(Model()))
      ensures Model() == ChargeAll(old(Model()))
    {
      match this
      case One(s) => posts := s.NotifyAllDartPorts();
      case Many(m) => posts := m.NotifyAllDartPorts();
    }

    method ReturnTokens(port: Port, count: nat)
      requires Valid() && port in Ports(Model())
      modifies Repr()
      ensures Valid() && fresh(Repr() - old(Repr()))
      ensures Model() == GiveBack(old(Model()), port, count)
    {
      match this
      case One(s) => s.ReturnTokens(port, count);
      case Many(m) => m.ReturnTokens(port, count);
    }
  }

  /** The descriptors by file descriptor: the handler's hash map and the objects it owns. */
  class SocketMap {
    var entries: map<Fd, DescriptorRef>
    ghost var descriptors: map<Fd, Descriptor>
    ghost var owned: map<Fd, set<object>>
    ghost var repr: set<object>

    /** Entry `fd` is valid, keeps to the objects it owns, and stands for `descriptors[fd]`. */
    ghost predicate Holds(fd: Fd)
      reads this, repr
    {
      && fd in entries && fd in owned && fd in descriptors
      && owned[fd] <= repr && this !in owned[fd]
      && entries[fd].Core() <= owned[fd]
      && entries[fd].Repr() <= owned[fd]
      && entries[fd].Valid()
      && descriptors[fd] == entries[fd].Model()
    }

    ghost predicate Valid()
      reads this, repr
    {
      && this in repr
      && descriptors.Keys == entries.Keys == owned.Keys
      && (forall fd :: fd in entries ==> Holds(fd))
      && (forall f, g :: f in owned && g in owned && f != g ==> owned[f] !! owned[g])
    }

    constructor ()
      ensures Valid() && fresh(repr) && descriptors == map[]
    {
      entries, descriptors, owned := map[], map[], map[];
      repr := {this};
    }

    /** Valid but for entry `fd`, whose descriptor has just changed. */
    ghost predicate Changing(fd: Fd)
      reads this, repr
    {
      && this in repr
      && fd in entries && descriptors.Keys == entries.Keys == owned.Keys
      && owned[fd] <= repr && this !in owned[fd]
      && entries[fd].Core() <= owned[fd]
      && (forall g :: g in entries && g != fd ==> Holds(g))
      && (forall f, g :: f in owned && g in owned && f != g ==> owned[f] !! owned[g])
    }

    /** A step that touched nothing but the objects of entry `fd` leaves the other entries alone. */
    twostate lemma OthersKept(fd: Fd)
      requires old(Valid()) && old(fd in entries) && unchanged(this)
      requires forall o: object :: o in old(repr) && o !in old(owned[fd]) ==> unchanged(o)
      ensures Changing(fd)
    {
      assert old(Holds(fd));
      forall g | g in entries && g != fd
        ensures Holds(g)
      {
        assert old(Holds(g));
        assert owned[g] !! owned[fd];
      }
    }

    /** The books brought up to date with the changed descriptor and what it allocated. */
    ghost method Settle(fd: Fd)
      requires Changing(fd) && entries[fd].Valid()
      requires entries[fd].Repr() - owned[fd] !! repr
      modifies this
      ensures Valid()
      ensures entries == old(entries) && descriptors == old(descriptors)[fd := entries[fd].Model()]
      ensures repr == old(repr) + entries[fd].Repr()
    {
      var d, more := entries[fd].Model(), entries[fd].Repr();
      descriptors := descriptors[fd := d];
      owned := owned[fd := owned[fd] + more];
      repr := repr + more;
      forall g | g in entries && g != fd
        ensures Holds(g)
      {
        assert old(Holds(g));
      }
      assert Holds(fd);
    }

    method SetPortAndMask(fd: Fd, port: Port, mask: nat)
      requires Valid() && fd in entries
      requires descriptors[fd].Single? ==> descriptors[fd].port == ILLEGAL_PORT || descriptors[fd].port == port
      requires descriptors[fd].Multiple? ==> mask <= IN_EVENT
      modifies repr
      ensures Valid() && fresh(repr - old(repr)) && entries == old(entries)
      ensures descriptors == old(descriptors)[fd := EpollProtocol.SetPortAndMask(old(descriptors)[fd], port, mask)]
    {
      assert Holds(fd);
      entries[fd].SetPortAndMask(port, mask);
      OthersKept(fd);
      Settle(fd);
    }

    method RemovePort(fd: Fd, port: Port)
      requires Valid() && fd in entries
      requires descriptors[fd].Single? ==> descriptors[fd].port == ILLEGAL_PORT || descriptors[fd].port == port
      modifies repr
      ensures Valid() && repr == old(repr) && entries == old(entries)
      ensures descriptors == old(descriptors)[fd := RemoveListener(old(descriptors)[fd], port)]
    {
      assert Holds(fd);
      entries[fd].RemovePort(port);
      OthersKept(fd);
      Settle(fd);
    }

    method NextNotifyDartPort(fd: Fd) returns (port: Port)
      requires Valid() && fd in entries
      modifies repr
      ensures Valid() && repr == old(repr) && entries == old(entries)
      ensures port == NextListener(old(descriptors)[fd])
      ensures descriptors == old(descriptors)[fd := ChargeNext(old(descriptors)[fd])]
    {
      assert Holds(fd);
      port := entries[fd].NextNotifyDartPort();
      OthersKept(fd);
      Settle(fd);
    }

    method NotifyAllDartPorts(fd: Fd) returns (posts: set<Port>)
      requires Valid() && fd in entries
      modifies repr
      ensures Valid() && repr == old(repr) && entries == old(entries)
      ensures posts == Ports(old(descriptors)[fd])
      ensures descriptors == old(descriptors)[fd := ChargeAll(old(descriptors)[fd])]
    {
      assert Holds(fd);
      posts := entries[fd].NotifyAllDartPorts();
      OthersKept(fd);
      Settle(fd);
    }

    method ReturnTokens(fd: Fd, port: Port, count: nat)
      requires Valid() && fd in entries
      requires port in Ports(descriptors[fd])
      modifies repr
      ensures Valid() && fresh(repr - old(repr)) && entries == old(entries)
      ensures descriptors == old(descriptors)[fd := GiveBack(old(descriptors)[fd], port, count)]
    {
      assert Holds(fd);
      entries[fd].ReturnTokens(port, count);
      OthersKept(fd);
      Settle(fd);
    }

    method Mask(fd: Fd) returns (mask: nat)
      requires Valid() && fd in entries
      ensures mask == EpollProtocol.Mask(descriptors[fd])
    {
      assert Holds(fd);
      mask := entries[fd].Mask();
    }

    /** Finds the descriptor of `fd`, creating one of the asked kind if there is none. */
    method GetDescriptorInfo(fd: Fd, isListening: bool)
      requires Valid()
      modifies this
      ensures Valid() && fresh(repr - old(repr))
      ensures fd in entries && forall g :: g in old(entries) ==> g in entries && entries[g] == old(entries)[g]
      ensures descriptors ==
              if fd in old(descriptors) then old(descriptors) else old(descriptors)[fd := NewDescriptor(isListening)]
    {
      if fd !in entries {
        var di: DescriptorRef;
        if isListening {
          var m := new DescriptorInfoMultiple(false);
          di := Many(m);
        } else {
          var s := new DescriptorInfoSingle(false);
          di := One(s);
        }
        Insert(fd, di);
      }
    }

    method Insert(fd: Fd, di: DescriptorRef)
      requires Valid() && fd !in entries
      requires di.Valid() && di.Repr() !! repr && di.Core() <= di.Repr()
      modifies this
      ensures Valid() && repr == old(repr) + di.Repr()
      ensures entries == old(entries)[fd := di] && descriptors == old(descriptors)[fd := di.Model()]
    {
      ghost var d, more := di.Model(), di.Repr();
      entries, descriptors, owned := entries[fd := di], descriptors[fd := d], owned[fd := more];
      repr := repr + more;
      forall g | g in entries && g != fd
        ensures Holds(g)
      {
        assert old(Holds(g));
      }
      assert Holds(fd);
    }

    /** Takes the descriptor out of the map and deletes it. */
    method Delete(fd: Fd)
      requires Valid()
      modifies this
      ensures Valid() && repr == old(repr)
      ensures entries == old(entries) - {fd} && descriptors == old(descriptors) - {fd}
    {
      entries, descriptors, owned := entries - {fd}, descriptors - {fd}, owned - {fd};
      forall g | g in entries
        ensures Holds(g)
      {
        assert old(Holds(g));
      }
    }
  }

  class EventHandlerImplementation {
    const sockets: SocketMap
    var epoll: Epoll                          // the kernel's side: interest, and answers to ADD
    var registration: map<Fd, DescriptorRef>  // the pointer that the kernel reports for a descriptor
    var posted: multiset<Post>
    var shutdown: bool
    ghost var model: Handler

    /** `model` is what the fields stand for, and the kernel points to live descriptors only. */
    ghost predicate Consistent()
      reads this, sockets, sockets.repr
    {
      && sockets.Valid() && this !in sockets.repr
      && model.descriptors == sockets.descriptors
      && model.epoll == epoll && model.posted == posted && model.shutdown == shutdown
      && registration.Keys == epoll.registered.Keys
      && (forall fd :: fd in registration ==> fd in sockets.entries && registration[fd] == sockets.entries[fd])
    }

    ghost predicate Valid()
      reads this, sockets, sockets.repr
    {
      Consistent() && Inv(model)
    }

    constructor ()
      ensures Valid() && fresh(sockets.repr)
      ensures model == Start()
    {
      sockets := new SocketMap();
      registration := map[];
      epoll := Epoll(map[], map[]);
      posted, shutdown := multiset{}, false;
      model := Start();
    }

    /** The poll events of a descriptor's current mask. */
    method GetPollEvents(fd: Fd) returns (interest: Interest)
      requires Consistent() && fd in sockets.entries
      ensures interest == Translate(model.descriptors[fd])
    {
      var mask := sockets.Mask(fd);
      assert sockets.Holds(fd);
      interest := Interest(HasBit(mask, IN_EVENT), HasBit(mask, OUT_EVENT), sockets.entries[fd].One?);
    }

    method RemoveFromEpollInstance(fd: Fd)
      requires Consistent()
      modifies this
      ensures Consistent()
      ensures model == RemoveFromEpoll(old(model), fd)
    {
      epoll := epoll.(registered := epoll.registered - {fd});
      registration := registration - {fd};
      model := RemoveFromEpoll(model, fd);
    }

    /** Posts `events` to every port of the descriptor. */
    method NotifyAll(fd: Fd, events: nat)
      requires Consistent() && fd in sockets.entries
      modifies this, sockets.repr
      ensures Consistent() && sockets.repr == old(sockets.repr) && sockets.entries == old(sockets.entries)
      ensures model == Broadcast(old(model), fd, events)
    {
      var ports := sockets.NotifyAllDartPorts(fd);
      posted := posted + multiset(set p | p in ports :: Post(fd, p, events));
      model := Broadcast(model, fd, events);
    }

    method AddToEpollInstance(fd: Fd, addOk: bool)
      requires Consistent() && fd in sockets.entries
      modifies this, sockets.repr
      ensures Consistent() && sockets.repr == old(sockets.repr) && sockets.entries == old(sockets.entries)
      ensures model == AddToEpoll(old(model), fd, addOk)
    {
      var interest := GetPollEvents(fd);
      var ok := EpollCtlAdd(fd, interest, addOk);
      if !ok {
        NotifyAll(fd, CLOSE_EVENT);
      }
    }

    /** The kernel's ADD: it keeps the interest and the pointer, or refuses. */
    method EpollCtlAdd(fd: Fd, interest: Interest, addOk: bool) returns (ok: bool)
      requires Consistent() && fd in sockets.entries
      modifies this
      ensures Consistent()
      ensures ok == (addOk && fd !in old(epoll).registered)
      ensures model == old(model).(epoll := epoll)
      ensures epoll ==
              if ok then Epoll(old(epoll).registered[fd := interest], old(epoll).lastAdd[fd := true])
              else old(epoll).(lastAdd := old(epoll).lastAdd[fd := false])
    {
      ok := addOk && fd !in epoll.registered;
      if ok {
        epoll := Epoll(epoll.registered[fd := interest], epoll.lastAdd[fd := true]);
        registration := registration[fd := sockets.entries[fd]];
      } else {
        epoll := epoll.(lastAdd := epoll.lastAdd[fd := false]);
      }
      model := model.(epoll := epoll);
    }

    /** Tells the kernel how the mask of the descriptor has changed. */
    method UpdateEpollInstance(oldMask: nat, fd: Fd, addOk: bool)
      requires Consistent() && fd in sockets.entries
      modifies this, sockets.repr
      ensures Consistent() && sockets.repr == old(sockets.repr) && sockets.entries == old(sockets.entries)
      ensures model == UpdateEpoll(old(model), oldMask, fd, addOk)
    {
      var newMask := sockets.Mask(fd);
      if oldMask != 0 && newMask == 0 {
        RemoveFromEpollInstance(fd);
      } else if oldMask == 0 && newMask != 0 {
        AddToEpollInstance(fd, addOk);
      } else if oldMask != 0 && newMask != 0 && oldMask != newMask {
        RemoveFromEpollInstance(fd);
        AddToEpollInstance(fd, addOk);
      }
    }

    /** The descriptor without one of its ports; the kernel is not told yet. */
    method RemovePort(fd: Fd, port: Port)
      requires Consistent() && fd in sockets.entries
      requires var d := model.descriptors[fd]; d.Single? ==> d.port == ILLEGAL_PORT || d.port == port
      modifies this, sockets.repr
      ensures Consistent() && sockets.repr == old(sockets.repr) && sockets.entries == old(sockets.entries)
      ensures var all := old(model).descriptors;
              model == old(model).(descriptors := all[fd := RemoveListener(all[fd], port)])
    {
      sockets.RemovePort(fd, port);
      model := model.(descriptors := sockets.descriptors);
    }

    /** The descriptor with a new interest of one port; the kernel is not told yet. */
    method SetPortAndMask(fd: Fd, port: Port, mask: nat)
      requires Consistent() && fd in sockets.entries
      requires var d := model.descriptors[fd]; d.Single? ==> d.port == ILLEGAL_PORT || d.port == port
      requires model.descriptors[fd].Multiple? ==> mask <= IN_EVENT
      modifies this, sockets.repr
      ensures Consistent() && fresh(sockets.repr - old(sockets.repr)) && sockets.entries == old(sockets.entries)
      ensures var all := old(model).descriptors;
              model == old(model).(descriptors := all[fd := EpollProtocol.SetPortAndMask(all[fd], port, mask)])
    {
      sockets.SetPortAndMask(fd, port, mask);
      model := model.(descriptors := sockets.descriptors);
    }

    /** The descriptor with tokens given back, and owed no longer; the kernel is not told yet. */
    method ReturnTokens(fd: Fd, port: Port, count: nat)
      requires Consistent() && fd in sockets.entries
      requires port in Ports(model.descriptors[fd])
      modifies this, sockets.repr
      ensures Consistent() && fresh(sockets.repr - old(sockets.repr)) && sockets.entries == old(sockets.entries)
      ensures var h, key := old(model), (fd, port);
              model == h.(descriptors := h.descriptors[fd := GiveBack(h.descriptors[fd], port, count)],
                          owed := h.owed[key := if count <= h.owed[key] then h.owed[key] - count else 0])
    {
      sockets.ReturnTokens(fd, port, count);
      ghost var key := (fd, port);
      model := model.(descriptors := sockets.descriptors,
                      owed := model.owed[key := if count <= model.owed[key] then model.owed[key] - count else 0]);
    }

    /** Takes a port off the descriptor and tells the kernel. */
    method DropListener(fd: Fd, port: Port, addOk: bool)
      requires Consistent() && fd in sockets.entries
      requires var d := model.descriptors[fd]; d.Single? ==> d.port == ILLEGAL_PORT || d.port == port
      modifies this, sockets.repr
      ensures Consistent() && sockets.repr == old(sockets.repr) && sockets.entries == old(sockets.entries)
      ensures model == Change(old(model), fd, RemoveListener(old(model).descriptors[fd], port), addOk)
    {
      var oldMask := sockets.Mask(fd);
      RemovePort(fd, port);
      UpdateEpollInstance(oldMask, fd, addOk);
    }

    /** Posts an event to one port. */
    method PostTo(fd: Fd, port: Port, events: nat)
      requires Consistent()
      modifies this
      ensures Consistent()
      ensures model == old(model).(posted := old(model).posted + multiset{Post(fd, port, events)})
    {
      posted := posted + multiset{Post(fd, port, events)};
      model := model.(posted := posted);
    }

    /** The close command: the port goes, and with the last listener the descriptor. */
    method CloseSocket(m: Message)
      requires Valid() && m.ToSocket? && m.fd in sockets.entries
      requires IsCommand(m.data, CLOSE_COMMAND) && IsWellFormedFor(model.descriptors[m.fd], m)
      modifies this, sockets.repr
      ensures Consistent() && sockets.repr == old(sockets.repr)
      ensures model == OnClose(old(model), m)
    {
      OnCloseInv(model, m);
      var isListening := IsListening(m.fd);
      if m.port != ILLEGAL_PORT {
        DropListener(m.fd, m.port, m.addOk);
      } else {
        UnchangedDescriptor(model, m.fd, m.addOk);
      }
      if !isListening || m.closeSafe {
        Forget(m.fd);
      }
      PostTo(m.fd, m.port, DESTROYED_EVENT);
    }

    method IsListening(fd: Fd) returns (r: bool)
      requires Consistent() && fd in sockets.entries
      ensures r == model.descriptors[fd].Multiple?
    {
      assert sockets.Holds(fd);
      r := sockets.entries[fd].Many?;
    }

    lemma UnchangedDescriptor(h: Handler, fd: Fd, addOk: bool)
      requires fd in h.descriptors
      ensures Change(h, fd, h.descriptors[fd], addOk) == h
    {
      assert h.descriptors[fd := h.descriptors[fd]] == h.descriptors;
    }

    /** Deletes a descriptor, which the kernel must not point to any more. */
    method Forget(fd: Fd)
      requires Consistent() && fd !in epoll.registered
      modifies this, sockets
      ensures Consistent() && sockets.repr == old(sockets.repr)
      ensures model == EpollProtocol.Forget(old(model), fd)
    {
      sockets.Delete(fd);
      epoll := epoll.(lastAdd := epoll.lastAdd - {fd});
      model := EpollProtocol.Forget(model, fd);
    }

    method LookUp(fd: Fd, isListening: bool)
      requires Consistent()
      modifies this, sockets
      ensures Consistent() && fresh(sockets.repr - old(sockets.repr)) && fd in sockets.entries
      ensures model == Lookup(old(model), fd, isListening)
    {
      sockets.GetDescriptorInfo(fd, isListening);
      model := Lookup(model, fd, isListening);
    }

    method ReturnTokensCommand(m: Message)
      requires Consistent() && m.ToSocket? && m.fd in sockets.entries && m.port in Ports(model.descriptors[m.fd])
      modifies this, sockets.repr
      ensures Consistent() && fresh(sockets.repr - old(sockets.repr))
      ensures model == OnReturnTokens(old(model), m)
    {
      hide UpdateEpoll, GiveBack;
      var count := TokenCount(m.data);
      var oldMask := sockets.Mask(m.fd);
      ReturnTokens(m.fd, m.port, count);
      UpdateEpollInstance(oldMask, m.fd, m.addOk);
    }

    method SetEventMaskCommand(m: Message)
      requires Consistent() && m.ToSocket? && m.fd in sockets.entries
      requires var d := model.descriptors[m.fd];
               && (d.Multiple? ==> EventBits(m.data) <= IN_EVENT)
               && (d.Single? ==> d.port == ILLEGAL_PORT || d.port == m.port)
      modifies this, sockets.repr
      ensures Consistent() && fresh(sockets.repr - old(sockets.repr))
      ensures model == OnSetEventMask(old(model), m)
    {
      var oldMask := sockets.Mask(m.fd);
      if m.port !in Ports(model.descriptors[m.fd]) {
        model := model.(owed := model.owed[(m.fd, m.port) := 0]);
      }
      SetPortAndMask(m.fd, m.port, EventBits(m.data));
      UpdateEpollInstance(oldMask, m.fd, m.addOk);
    }

    /** One message from the interrupt pipe. */
    method HandleMessage(m: Message)
      requires Valid() && IsWellFormed(model, m)
      modifies this, sockets.repr
      ensures Valid() && fresh(sockets.repr - old(sockets.repr))
      ensures model == OnMessage(old(model), m)
    {
      hide Inv, OnClose, OnReturnTokens, OnSetEventMask, Pow2, SameElsewhere;
      OnMessageInv(model, m);
      match m
      case Timer =>
      case Shutdown =>
        shutdown := true;
        model := model.(shutdown := true);
      case ToSocket(fd, port, data, closeSafe, addOk) =>
        if fd != -1 {
          LookupInv(model, fd, IsListeningSocket(data));
          LookUp(fd, IsListeningSocket(data));
          if IsCommand(data, SHUTDOWN_READ_COMMAND) || IsCommand(data, SHUTDOWN_WRITE_COMMAND) {
          } else if IsCommand(data, CLOSE_COMMAND) {
            CloseSocket(m);
          } else if IsCommand(data, RETURN_TOKEN_COMMAND) {
            ReturnTokensCommand(m);
          } else {
            SetEventMaskCommand(m);
          }
        }
    }

    /** All messages read from the interrupt pipe. */
    method HandleInterruptFd(messages: seq<Message>)
      requires Valid() && CanHandleMessages(model, messages)
      modifies this, sockets.repr
      ensures Valid() && fresh(sockets.repr - old(sockets.repr))
      ensures model == OnMessages(old(model), messages)
    {
      var i := 0;
      assert messages[0..] == messages;
      while i < |messages|
        invariant 0 <= i <= |messages|
        invariant Valid() && fresh(sockets.repr - old(sockets.repr))
        invariant CanHandleMessages(model, messages[i..])
        invariant OnMessages(model, messages[i..]) == OnMessages(old(model), messages)
      {
        assert messages[i..][0] == messages[i] && messages[i..][1..] == messages[i + 1..];
        HandleMessage(messages[i]);
        i := i + 1;
      }
    }

    /** One event, dispatched to the descriptor that the kernel points to. */
    method HandleEvent(di: DescriptorRef, e: Event)
      requires Valid() && e.fd in epoll.registered && registration[e.fd] == di
      modifies this, sockets.repr
      ensures Valid() && sockets.repr == old(sockets.repr) && sockets.entries == old(sockets.entries)
      ensures model == OnEvent(old(model), e)
    {
      OnEventInv(model, e);
      var fd := e.fd;
      assert sockets.entries[fd] == di;
      var oldMask := sockets.Mask(fd);
      var eventMask := EventMask(e);
      if eventMask == ERROR_EVENT {
        NotifyAll(fd, ERROR_EVENT);
        UpdateEpollInstance(oldMask, fd, e.addOk);
      } else if eventMask != 0 {
        RegisteredHasListener(model, fd);
        var port := NotifyNext(fd, eventMask);
        UpdateEpollInstance(oldMask, fd, e.addOk);
      }
    }

    /** Charges the listener whose turn it is and posts the events to it. */
    method NotifyNext(fd: Fd, events: nat) returns (port: Port)
      requires Consistent() && fd in sockets.entries
      modifies this, sockets.repr
      ensures Consistent() && sockets.repr == old(sockets.repr) && sockets.entries == old(sockets.entries)
      ensures port == NextListener(old(model).descriptors[fd])
      ensures model == Notify(old(model), fd, {port}, events).(
                descriptors := old(model).descriptors[fd := ChargeNext(old(model).descriptors[fd])])
    {
      ghost var d := model.descriptors[fd];
      port := sockets.NextNotifyDartPort(fd);
      posted := posted + multiset(set p | p in {port} :: Post(fd, p, events));
      model := Notify(model, fd, {port}, events).(descriptors := model.descriptors[fd := ChargeNext(d)]);
    }

    /** A batch as the kernel reports it: with each event, the pointer registered for it. */
    ghost predicate IsReported(events: seq<KernelEvent>)
      reads this
    {
      && IsBatch(model, Reports(events))
      && forall i :: 0 <= i < |events| && events[i].FromSocket? ==>
           events[i].event.fd in registration && registration[events[i].event.fd] == events[i].di
    }

    /**
     One wake-up. The events are dispatched in order; that there are messages is only noted,
     and they are handled when the batch is done, so that none of them can delete a descriptor
     that an event of the batch points to.
     */
    method HandleEvents(events: seq<KernelEvent>, messages: seq<Message>)
      requires Valid() && IsReported(events) && CanPoll(model, Poll(Reports(events), messages))
      modifies this, sockets.repr
      ensures Valid() && fresh(sockets.repr - old(sockets.repr))
      ensures model == OnPoll(old(model), Poll(Reports(events), messages))
    {
      ghost var batch := Reports(events);
      var interruptSeen, i := false, 0;
      assert events[0..] == events;
      while i < |events|
        invariant 0 <= i <= |events|
        invariant Valid() && sockets.repr == old(sockets.repr)
        invariant IsReported(events[i..]) && CanHandleEvents(model, Reports(events[i..]))
        invariant OnEvents(model, Reports(events[i..])) == OnEvents(old(model), batch)
        invariant interruptSeen <==> Interrupt in batch[..i]
      {
        assert events[i..][1..] == events[i + 1..] && batch[..i + 1] == batch[..i] + [batch[i]];
        if events[i].FromInterruptPipe? {
          interruptSeen := true;
        }
        DispatchOne(events[i..]);
        i := i + 1;
      }
      assert batch[..i] == batch;
      if interruptSeen {
        HandleInterruptFd(messages);
      }
    }

    /** The first event of the rest of a batch; what remains can still be dispatched. */
    method DispatchOne(events: seq<KernelEvent>)
      requires Valid() && events != [] && IsReported(events)
      requires CanHandleEvents(model, Reports(events))
      modifies this, sockets.repr
      ensures Valid() && sockets.repr == old(sockets.repr)
      ensures IsReported(events[1..])
      ensures CanHandleEvents(model, Reports(events[1..]))
      ensures OnEvents(model, Reports(events[1..])) == OnEvents(old(model), Reports(events))
    {
      ghost var batch := Reports(events);
      BatchRest(model, batch);
      assert batch[0] == ReportOf(events[0]) && batch[1..] == Reports(events[1..]);
      if events[0].FromSocket? {
        HandleEvent(events[0].di, events[0].event);
      }
      forall i | 0 <= i < |events| - 1 && events[1..][i].FromSocket?
        ensures var e := events[1..][i]; e.event.fd in registration && registration[e.event.fd] == e.di
      {
        var e := events[i + 1];
        assert batch[1..][i] == Ready(e.event) && e.event.fd in epoll.registered;
        assert old(registration)[e.event.fd] == e.di;
      }
    }
  }

  /** An event with the pointer that was registered for it: null for the interrupt pipe. */
  datatype KernelEvent = FromInterruptPipe | FromTimer | FromSocket(di: DescriptorRef, event: Event)

  function ReportOf(e: KernelEvent): Report {
    match e
    case FromInterruptPipe => Interrupt
    case FromTimer => TimerFired
    case FromSocket(_, event) => Ready(event)
  }

  /** The batch without its pointers. */
  function Reports(events: seq<KernelEvent>): (r: seq<Report>)
    ensures |r| == |events|
    ensures forall i :: 0 <= i < |events| ==> r[i] == ReportOf(events[i])
  {
    seq(|events|, i requires 0 <= i < |events| => ReportOf(events[i]))
  }
}
