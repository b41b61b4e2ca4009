/**
 The Linux event handler on values: descriptors by file descriptor, the interest registered
 with the kernel, and the steps that interrupt messages and event batches take. `epoll_ctl`
 may refuse any ADD; every message and event carries that answer.
 */
module EpollProtocol {
  import opened Basics
  import opened SharedPorts

  type Fd = int

  // Bits of event masks.
  const IN_EVENT := 1
  const OUT_EVENT := 2
  const ERROR_EVENT := 4
  const CLOSE_EVENT := 8
  const DESTROYED_EVENT := 16

  /** Tokens of a descriptor with a single port. */
  const SINGLE_TOKENS := 16

  // ----- descriptors -----

  datatype Descriptor =
    | Single(port: Port, tokens: int, mask: nat)
    | Multiple(shared: Shared)

  /** The mask a descriptor reports; a single port without tokens counts as uninterested. */
  function Mask(d: Descriptor): nat {
    match d
    case Single(_, tokens, mask) => if tokens <= 0 then 0 else mask
    case Multiple(shared) => if shared.active != [] then IN_EVENT else 0
  }

  function Ports(d: Descriptor): set<Port> {
    match d
    case Single(port, _, _) => if port == ILLEGAL_PORT then {} else {port}
    case Multiple(shared) => shared.ports.Keys
  }

  function Tokens(d: Descriptor, p: Port): int
    requires p in Ports(d)
  {
    match d
    case Single(_, tokens, _) => tokens
    case Multiple(shared) => shared.ports[p].tokens
  }

  function Budget(d: Descriptor): int {
    if d.Single? then SINGLE_TOKENS else SHARED_TOKENS
  }

  function NewDescriptor(isListening: bool): Descriptor {
    if isListening then Multiple(New(false)) else Single(ILLEGAL_PORT, SINGLE_TOKENS, 0)
  }

  function SetPortAndMask(d: Descriptor, p: Port, mask: nat): Descriptor {
    match d
    case Single(_, tokens, _) => Single(p, tokens, mask)
    case Multiple(shared) => Multiple(SetReading(shared, p, mask == IN_EVENT))
  }

  function RemoveListener(d: Descriptor, p: Port): Descriptor {
    match d
    case Single(_, tokens, _) => Single(ILLEGAL_PORT, tokens, 0)
    case Multiple(shared) => Multiple(RemovePort(shared, p))
  }

  function NextListener(d: Descriptor): Port {
    match d
    case Single(port, _, _) => port
    case Multiple(shared) => NextPort(shared)
  }

  function ChargeNext(d: Descriptor): Descriptor {
    match d
    case Single(port, tokens, mask) => Single(port, tokens - 1, mask)
    case Multiple(shared) => Multiple(NotifyNext(shared))
  }

  function ChargeAll(d: Descriptor): Descriptor {
    match d
    case Single(port, tokens, mask) => Single(port, tokens - 1, mask)
    case Multiple(shared) => Multiple(NotifyAll(shared))
  }

  function GiveBack(d: Descriptor, p: Port, count: nat): Descriptor
    requires p in Ports(d)
  {
    match d
    case Single(port, tokens, mask) => Single(port, tokens + count, mask)
    case Multiple(shared) => Multiple(ReturnTokens(shared, p, count))
  }

  // ----- the handler -----

  /** What the kernel watches for; hang-up of the peer is always included. */
  datatype Interest = Interest(input: bool, output: bool, edgeTriggered: bool)

  /** The registered interest, and the answer to the latest ADD of each descriptor. */
  datatype Epoll = Epoll(registered: map<Fd, Interest>, lastAdd: map<Fd, bool>)

  datatype Post = Post(fd: Fd, port: Port, events: nat)

  /** `owed` counts the tokens charged to a port of a descriptor and not yet returned. */
  datatype Handler = Handler(
    descriptors: map<Fd, Descriptor>,
    epoll: Epoll,
    posted: multiset<Post>,
    owed: multiset<(Fd, Port)>,
    shutdown: bool)

  function Start(): Handler {
    Handler(map[], Epoll(map[], map[]), multiset{}, multiset{}, false)
  }

  function HasBit(mask: nat, bit: nat): bool
    requires bit > 0
  {
    (mask / bit) % 2 == 1
  }

  function Translate(d: Descriptor): Interest {
    Interest(HasBit(Mask(d), IN_EVENT), HasBit(Mask(d), OUT_EVENT), d.Single?)
  }

  /** `events` posted to each of `ports`, and a token charged to each. */
  function Notify(h: Handler, fd: Fd, ports: set<Port>, events: nat): Handler {
    h.(posted := h.posted + multiset(set p | p in ports :: Post(fd, p, events)),
       owed := h.owed + multiset(set p | p in ports :: (fd, p)))
  }

  /** Posts `events` to every port of the descriptor; each pays a token. */
  function Broadcast(h: Handler, fd: Fd, events: nat): Handler
    requires fd in h.descriptors
  {
    var d := h.descriptors[fd];
    Notify(h, fd, Ports(d), events).(descriptors := h.descriptors[fd := ChargeAll(d)])
  }

  /** The kernel refuses an ADD of a registered descriptor, and may refuse any other. */
  function AddToEpoll(h: Handler, fd: Fd, addOk: bool): Handler
    requires fd in h.descriptors
  {
    if addOk && fd !in h.epoll.registered then
      h.(epoll := Epoll(h.epoll.registered[fd := Translate(h.descriptors[fd])], h.epoll.lastAdd[fd := true]))
    else
      Broadcast(h.(epoll := h.epoll.(lastAdd := h.epoll.lastAdd[fd := false])), fd, CLOSE_EVENT)
  }

  function RemoveFromEpoll(h: Handler, fd: Fd): Handler {
    h.(epoll := h.epoll.(registered := h.epoll.registered - {fd}))
  }

  function UpdateEpoll(h: Handler, oldMask: nat, fd: Fd, addOk: bool): Handler
    requires fd in h.descriptors
  {
    var newMask := Mask(h.descriptors[fd]);
    if oldMask != 0 && newMask == 0 then RemoveFromEpoll(h, fd)
    else if oldMask == 0 && newMask != 0 then AddToEpoll(h, fd, addOk)
    else if oldMask != 0 && newMask != 0 && oldMask != newMask then AddToEpoll(RemoveFromEpoll(h, fd), fd, addOk)
    else h
  }

  /** The descriptor replaced by `d`, and the kernel told about its new mask. */
  function Change(h: Handler, fd: Fd, d: Descriptor, addOk: bool): Handler
    requires fd in h.descriptors
  {
    UpdateEpoll(h.(descriptors := h.descriptors[fd := d]), Mask(h.descriptors[fd]), fd, addOk)
  }

  function Lookup(h: Handler, fd: Fd, isListening: bool): Handler {
    if fd in h.descriptors then h else h.(descriptors := h.descriptors[fd := NewDescriptor(isListening)])
  }

  // ----- interrupt messages -----

  // Positions in the data word of a message.
  const CLOSE_COMMAND := 8
  const SHUTDOWN_READ_COMMAND := 9
  const SHUTDOWN_WRITE_COMMAND := 10
  const RETURN_TOKEN_COMMAND := 11
  const SET_EVENT_MASK_COMMAND := 12
  const LISTENING_SOCKET := 16

  /** The five command bits, 8 to 12, hold exactly this one. */
  predicate IsCommand(data: nat, bit: nat)
    requires CLOSE_COMMAND <= bit <= SET_EVENT_MASK_COMMAND
  {
    (data / 256) % 32 == Pow2(bit - CLOSE_COMMAND)
  }

  predicate IsListeningSocket(data: nat) {
    HasBit(data, Pow2(LISTENING_SOCKET))
  }

  /** The event bits, 0 to 4. */
  function EventBits(data: nat): nat {
    data % 32
  }

  /** The low byte. */
  function TokenCount(data: nat): nat {
    data % 256
  }

  /**
   `fd` is -1 for a socket closed before the message arrived. `closeSafe` and `addOk` are the
   answers of the listening-socket registry and of the kernel, should they be asked.
   */
  datatype Message =
    | Timer
    | Shutdown
    | ToSocket(fd: Fd, port: Port, data: nat, closeSafe: bool, addOk: bool)

  /** The descriptor once the port that closes it is gone. */
  function WithoutCloser(d: Descriptor, m: Message): Descriptor
    requires m.ToSocket?
  {
    if m.port != ILLEGAL_PORT then RemoveListener(d, m.port) else d
  }

  /** A descriptor is deleted with its only port, or with the last socket that shares it. */
  predicate IsDeleted(d: Descriptor, m: Message)
    requires m.ToSocket?
  {
    d.Single? || m.closeSafe
  }

  function OnClose(h: Handler, m: Message): Handler
    requires m.ToSocket? && m.fd in h.descriptors
  {
    var d := h.descriptors[m.fd];
    var h1 := Change(h, m.fd, WithoutCloser(d, m), m.addOk);
    var h2 := if IsDeleted(d, m) then Forget(h1, m.fd) else h1;
    h2.(posted := h2.posted + multiset{Post(m.fd, m.port, DESTROYED_EVENT)})
  }

  /** Deletes a descriptor; the kernel is not told. */
  function Forget(h: Handler, fd: Fd): Handler {
    h.(descriptors := h.descriptors - {fd}, epoll := h.epoll.(lastAdd := h.epoll.lastAdd - {fd}))
  }

  function OnReturnTokens(h: Handler, m: Message): Handler
    requires m.ToSocket? && m.fd in h.descriptors && m.port in Ports(h.descriptors[m.fd])
  {
    var count, key := TokenCount(m.data), (m.fd, m.port);
    var h1 := h.(owed := h.owed[key := if count <= h.owed[key] then h.owed[key] - count else 0]);
    Change(h1, m.fd, GiveBack(h.descriptors[m.fd], m.port, count), m.addOk)
  }

  function OnSetEventMask(h: Handler, m: Message): Handler
    requires m.ToSocket? && m.fd in h.descriptors
  {
    var d := h.descriptors[m.fd];
    var h1 := if m.port in Ports(d) then h else h.(owed := h.owed[(m.fd, m.port) := 0]);
    Change(h1, m.fd, SetPortAndMask(d, m.port, EventBits(m.data)), m.addOk)
  }

  /** What the assertions of the source demand of a message that reaches descriptor `d`. */
  predicate IsWellFormedFor(d: Descriptor, m: Message)
    requires m.ToSocket?
  {
    if IsCommand(m.data, CLOSE_COMMAND) then
      && (d.Single? && m.port != ILLEGAL_PORT ==> d.port == ILLEGAL_PORT || d.port == m.port)
      && (IsDeleted(d, m) ==> Mask(WithoutCloser(d, m)) == 0)
    else if IsCommand(m.data, RETURN_TOKEN_COMMAND) then
      m.port in Ports(d)
    else if IsCommand(m.data, SET_EVENT_MASK_COMMAND) then
      && m.port != ILLEGAL_PORT
      && EventBits(m.data) <= IN_EVENT + OUT_EVENT
      && (d.Multiple? ==> EventBits(m.data) <= IN_EVENT)
      && (d.Single? ==> d.port == ILLEGAL_PORT || d.port == m.port)
    else
      IsCommand(m.data, SHUTDOWN_READ_COMMAND) || IsCommand(m.data, SHUTDOWN_WRITE_COMMAND)
  }

  predicate IsWellFormed(h: Handler, m: Message) {
    m.ToSocket? && m.fd != -1 ==>
      IsWellFormedFor(Lookup(h, m.fd, IsListeningSocket(m.data)).descriptors[m.fd], m)
  }

  function OnMessage(h: Handler, m: Message): Handler
    requires IsWellFormed(h, m)
  {
    match m
    case Timer => h
    case Shutdown => h.(shutdown := true)
    case ToSocket(fd, _, data, _, _) =>
      if fd == -1 then h
      else
        var h1 := Lookup(h, fd, IsListeningSocket(data));
        if IsCommand(data, SHUTDOWN_READ_COMMAND) || IsCommand(data, SHUTDOWN_WRITE_COMMAND) then h1
        else if IsCommand(data, CLOSE_COMMAND) then OnClose(h1, m)
        else if IsCommand(data, RETURN_TOKEN_COMMAND) then OnReturnTokens(h1, m)
        else OnSetEventMask(h1, m)
  }

  // ----- event batches -----

  datatype Event = Event(fd: Fd, input: bool, output: bool, error: bool, hangUp: bool, addOk: bool)

  /** An error is reported only together with input, and then alone; else each flag sets its bit. */
  function EventMask(e: Event): (m: nat)
    ensures HasBit(m, ERROR_EVENT) <==> e.error && e.input
    ensures HasBit(m, IN_EVENT) <==> e.input && !e.error
    ensures HasBit(m, OUT_EVENT) <==> e.output && !e.error
    ensures HasBit(m, CLOSE_EVENT) <==> e.hangUp && !e.error
    ensures m < DESTROYED_EVENT && (HasBit(m, ERROR_EVENT) ==> m == ERROR_EVENT)
    ensures m == 0 <==> if e.error then !e.input else !e.input && !e.output && !e.hangUp
  {
    if e.error then if e.input then ERROR_EVENT else 0
    else
      (if e.input then IN_EVENT else 0) + (if e.output then OUT_EVENT else 0) + (if e.hangUp then CLOSE_EVENT else 0)
  }

  function OnEvent(h: Handler, e: Event): Handler
    requires e.fd in h.descriptors
  {
    var d := h.descriptors[e.fd];
    if EventMask(e) == ERROR_EVENT then
      Change(Notify(h, e.fd, Ports(d), ERROR_EVENT), e.fd, ChargeAll(d), e.addOk)
    else if EventMask(e) != 0 then
      Change(Notify(h, e.fd, {NextListener(d)}, EventMask(e)), e.fd, ChargeNext(d), e.addOk)
    else h
  }

  /** What the kernel reports: something to read in the interrupt pipe, the timer, or a descriptor. */
  datatype Report = Interrupt | TimerFired | Ready(event: Event)

  /** The descriptors in a batch are distinct and registered when it is taken; the rest may be anywhere in it. */
  ghost predicate IsBatch(h: Handler, batch: seq<Report>) {
    && (forall i, j :: 0 <= i < j < |batch| && batch[i].Ready? && batch[j].Ready? ==>
          batch[i].event.fd != batch[j].event.fd)
    && (forall i :: 0 <= i < |batch| && batch[i].Ready? ==> batch[i].event.fd in h.epoll.registered)
  }

  // ----- the registration invariant -----

  ghost predicate IsSound(d: Descriptor) {
    match d
    case Single(port, _, mask) => mask <= IN_EVENT + OUT_EVENT && (mask != 0 ==> port != ILLEGAL_PORT)
    case Multiple(shared) => Agrees(shared) && !shared.disableTokens && ILLEGAL_PORT !in shared.ports
  }

  predicate AddRefused(h: Handler, fd: Fd) {
    fd in h.epoll.lastAdd && !h.epoll.lastAdd[fd]
  }

  /** The kernel's view of one descriptor. */
  ghost predicate InStep(h: Handler, fd: Fd)
    requires fd in h.descriptors
  {
    var d := h.descriptors[fd];
    && IsSound(d)
    && (fd in h.epoll.registered ==>
          Mask(d) != 0 && h.epoll.registered[fd] == Translate(d) && !AddRefused(h, fd))
    && (!AddRefused(h, fd) && Mask(d) != 0 ==> fd in h.epoll.registered)
  }

  ghost predicate Inv(h: Handler) {
    && h.epoll.registered.Keys <= h.descriptors.Keys
    && (forall fd :: fd in h.descriptors ==> InStep(h, fd))
  }

  lemma ChargeAllSound(d: Descriptor)
    requires IsSound(d)
    ensures IsSound(ChargeAll(d)) && Ports(ChargeAll(d)) == Ports(d)
  {
    if d.Multiple? {
      NotifyAllAgrees(d.shared);
    }
  }

  lemma ChargeNextSound(d: Descriptor)
    requires IsSound(d)
    ensures IsSound(ChargeNext(d)) && Ports(ChargeNext(d)) == Ports(d)
  {
    if d.Multiple? {
      NotifyNextAgrees(d.shared);
      if d.shared.active != [] {
        assert d.shared.active[0] in d.shared.active;
      }
    }
  }

  /** Descriptor `g` is as it was, here and in the kernel. */
  ghost predicate SameAt(h: Handler, h': Handler, g: Fd) {
    && (g in h.descriptors <==> g in h'.descriptors)
    && (g in h.descriptors ==> h.descriptors[g] == h'.descriptors[g])
    && (g in h.epoll.registered <==> g in h'.epoll.registered)
    && (g in h.epoll.registered ==> h.epoll.registered[g] == h'.epoll.registered[g])
    && (AddRefused(h, g) <==> AddRefused(h', g))
  }

  ghost predicate SameElsewhere(h: Handler, h': Handler, fd: Fd) {
    forall g :: g != fd ==> SameAt(h, h', g)
  }

  lemma SameElsewhereTrans(h: Handler, h1: Handler, h2: Handler, fd: Fd)
    requires SameElsewhere(h, h1, fd) && SameElsewhere(h1, h2, fd)
    ensures SameElsewhere(h, h2, fd)
  {
    forall g | g != fd
      ensures SameAt(h, h2, g)
    {
      assert SameAt(h, h1, g) && SameAt(h1, h2, g);
    }
  }

  lemma AddElsewhere(h: Handler, fd: Fd, addOk: bool)
    requires fd in h.descriptors
    ensures SameElsewhere(h, AddToEpoll(h, fd, addOk), fd)
  {
  }

  /** Telling the kernel about one descriptor touches no other. */
  lemma UpdateElsewhere(h: Handler, oldMask: nat, fd: Fd, addOk: bool)
    requires fd in h.descriptors
    ensures SameElsewhere(h, UpdateEpoll(h, oldMask, fd, addOk), fd)
  {
    var h1 := RemoveFromEpoll(h, fd);
    AddElsewhere(h, fd, addOk);
    AddElsewhere(h1, fd, addOk);
    SameElsewhereTrans(h, h1, AddToEpoll(h1, fd, addOk), fd);
  }

  lemma AddInStep(h: Handler, fd: Fd, addOk: bool)
    requires fd in h.descriptors && IsSound(h.descriptors[fd])
    requires fd !in h.epoll.registered && Mask(h.descriptors[fd]) != 0
    ensures var h' := AddToEpoll(h, fd, addOk);
            fd in h'.descriptors && InStep(h', fd)
  {
    ChargeAllSound(h.descriptors[fd]);
  }

  /**
   Telling the kernel keeps it in step: if `fd` was in step with descriptor `was`, then after
   any sound change of the descriptor, UpdateEpoll puts it in step again, refused or not.
   */
  lemma UpdateInStep(h: Handler, was: Descriptor, fd: Fd, addOk: bool)
    requires fd in h.descriptors && IsSound(h.descriptors[fd])
    requires was.Single? == h.descriptors[fd].Single?
    requires InStep(h.(descriptors := h.descriptors[fd := was]), fd)
    ensures var h' := UpdateEpoll(h, Mask(was), fd, addOk);
            fd in h'.descriptors && InStep(h', fd)
  {
    var g := h.(descriptors := h.descriptors[fd := was]);
    var newMask := Mask(h.descriptors[fd]);
    assert AddRefused(g, fd) <==> AddRefused(h, fd);
    if Mask(was) == 0 && newMask != 0 {
      AddInStep(h, fd, addOk);
    } else if Mask(was) != 0 && newMask != 0 && Mask(was) != newMask {
      AddInStep(RemoveFromEpoll(h, fd), fd, addOk);
    }
  }

  /** A shared descriptor is never re-registered with another mask: it has only one. */
  lemma SharedMaskNeverReplaced(was: Descriptor, d: Descriptor)
    requires was.Multiple? && d.Multiple?
    ensures !(Mask(was) != 0 && Mask(d) != 0 && Mask(was) != Mask(d))
  {
  }

  lemma ElsewhereInStep(h: Handler, h': Handler, fd: Fd)
    requires Inv(h) && SameElsewhere(h, h', fd)
    requires fd in h'.descriptors ==> InStep(h', fd)
    requires fd in h'.epoll.registered ==> fd in h'.descriptors
    ensures Inv(h')
  {
    forall g | g in h'.descriptors
      ensures InStep(h', g)
    {
      if g != fd {
        assert SameAt(h, h', g);
        assert InStep(h, g);
      }
    }
    forall g | g in h'.epoll.registered
      ensures g in h'.descriptors.Keys
    {
      if g != fd {
        assert SameAt(h, h', g);
        assert g in h.descriptors.Keys;
      }
    }
  }

  /** `h1` differs from `h` in the ledger and the posts only. */
  predicate SameDescriptors(h: Handler, h1: Handler) {
    h1.descriptors == h.descriptors && h1.epoll == h.epoll
  }

  /** A sound change of one descriptor keeps the kernel in step and touches no other descriptor. */
  lemma ChangeInv(h: Handler, h1: Handler, fd: Fd, d: Descriptor, addOk: bool)
    requires Inv(h) && SameDescriptors(h, h1) && fd in h.descriptors
    requires IsSound(d) && d.Single? == h.descriptors[fd].Single?
    ensures Inv(Change(h1, fd, d, addOk))
    ensures SameElsewhere(h, Change(h1, fd, d, addOk), fd)
    ensures fd in Change(h1, fd, d, addOk).descriptors
  {
    var h2 := h1.(descriptors := h1.descriptors[fd := d]);
    var h' := Change(h1, fd, d, addOk);
    assert InStep(h, fd);
    assert h2.descriptors[fd := h.descriptors[fd]] == h.descriptors;
    UpdateInStep(h2, h.descriptors[fd], fd, addOk);
    UpdateElsewhere(h2, Mask(h.descriptors[fd]), fd, addOk);
    assert SameElsewhere(h, h2, fd);
    SameElsewhereTrans(h, h2, h', fd);
    ElsewhereInStep(h, h', fd);
  }

  lemma SetSound(d: Descriptor, p: Port, mask: nat)
    requires IsSound(d) && p != ILLEGAL_PORT && mask <= IN_EVENT + OUT_EVENT
    ensures IsSound(SetPortAndMask(d, p, mask))
  {
    if d.Multiple? {
      SetReadingAgrees(d.shared, p, mask == IN_EVENT);
    }
  }

  lemma RemoveSound(d: Descriptor, p: Port)
    requires IsSound(d)
    ensures IsSound(RemoveListener(d, p))
  {
    if d.Multiple? {
      RemovePortAgrees(d.shared, p);
    }
  }

  lemma GiveBackSound(d: Descriptor, p: Port, count: nat)
    requires IsSound(d) && p in Ports(d)
    ensures IsSound(GiveBack(d, p, count)) && Ports(GiveBack(d, p, count)) == Ports(d)
  {
    if d.Multiple? {
      ReturnTokensAgrees(d.shared, p, count);
    }
  }

  lemma LookupInv(h: Handler, fd: Fd, isListening: bool)
    requires Inv(h)
    ensures var h' := Lookup(h, fd, isListening); Inv(h') && fd in h'.descriptors
  {
    if fd !in h.descriptors {
      ElsewhereInStep(h, Lookup(h, fd, isListening), fd);
    }
  }

  /** Only a descriptor that the kernel does not watch may be deleted. */
  lemma ForgetInv(h: Handler, fd: Fd)
    requires Inv(h) && fd !in h.epoll.registered
    ensures Inv(Forget(h, fd)) && SameElsewhere(h, Forget(h, fd), fd)
  {
    ElsewhereInStep(h, Forget(h, fd), fd);
  }

  /** A shared descriptor whose last port is gone asks for nothing. */
  lemma NoListenerNoMask(d: Descriptor)
    requires IsSound(d) && d.Multiple? && Ports(d) == {}
    ensures Mask(d) == 0
  {
    ActiveIffSomeReady(d.shared);
  }

  /** A close keeps the kernel in step; a descriptor that it deletes is not registered any more. */
  lemma OnCloseInv(h: Handler, m: Message)
    requires Inv(h) && m.ToSocket? && m.fd in h.descriptors
    requires IsCommand(m.data, CLOSE_COMMAND) && IsWellFormedFor(h.descriptors[m.fd], m)
    ensures Inv(OnClose(h, m))
    ensures var d := h.descriptors[m.fd];
            var h1 := Change(h, m.fd, WithoutCloser(d, m), m.addOk);
            && Inv(h1) && SameElsewhere(h, h1, m.fd)
            && (IsDeleted(d, m) ==> m.fd !in h1.epoll.registered && m.fd !in OnClose(h, m).epoll.registered)
  {
    var d := h.descriptors[m.fd];
    assert InStep(h, m.fd);
    RemoveSound(d, m.port);
    var gone := WithoutCloser(d, m);
    var h1 := Change(h, m.fd, gone, m.addOk);
    ChangeInv(h, h, m.fd, gone, m.addOk);
    if IsDeleted(d, m) {
      assert InStep(h1, m.fd) && h1.descriptors[m.fd] == gone;
      ForgetInv(h1, m.fd);
    }
  }

  lemma OnReturnTokensInv(h: Handler, m: Message)
    requires Inv(h) && m.ToSocket? && m.fd in h.descriptors && m.port in Ports(h.descriptors[m.fd])
    ensures Inv(OnReturnTokens(h, m))
  {
    hide EventMask;
    var d, key, count := h.descriptors[m.fd], (m.fd, m.port), TokenCount(m.data);
    assert InStep(h, m.fd);
    GiveBackSound(d, m.port, count);
    var h1 := h.(owed := h.owed[key := if count <= h.owed[key] then h.owed[key] - count else 0]);
    ChangeInv(h, h1, m.fd, GiveBack(d, m.port, count), m.addOk);
  }

  lemma OnSetEventMaskInv(h: Handler, m: Message)
    requires Inv(h) && m.ToSocket? && m.fd in h.descriptors
    requires m.port != ILLEGAL_PORT && EventBits(m.data) <= IN_EVENT + OUT_EVENT
    ensures Inv(OnSetEventMask(h, m))
  {
    var d := h.descriptors[m.fd];
    assert InStep(h, m.fd);
    SetSound(d, m.port, EventBits(m.data));
    var h1 := if m.port in Ports(d) then h else h.(owed := h.owed[(m.fd, m.port) := 0]);
    ChangeInv(h, h1, m.fd, SetPortAndMask(d, m.port, EventBits(m.data)), m.addOk);
  }

  /** Every well-formed message keeps the kernel in step with every descriptor. */
  lemma OnMessageInv(h: Handler, m: Message)
    requires Inv(h) && IsWellFormed(h, m)
    ensures Inv(OnMessage(h, m))
  {
    if m.ToSocket? && m.fd != -1 {
      var h1 := Lookup(h, m.fd, IsListeningSocket(m.data));
      LookupInv(h, m.fd, IsListeningSocket(m.data));
      if IsCommand(m.data, CLOSE_COMMAND) {
        OnCloseInv(h1, m);
      } else if IsCommand(m.data, RETURN_TOKEN_COMMAND) {
        OnReturnTokensInv(h1, m);
      } else if IsCommand(m.data, SET_EVENT_MASK_COMMAND) {
        OnSetEventMaskInv(h1, m);
      }
    }
  }

  // ----- dispatch -----

  /** A registered descriptor is alive, has someone to notify, and that port holds a token. */
  lemma RegisteredHasListener(h: Handler, fd: Fd)
    requires Inv(h) && fd in h.epoll.registered
    ensures fd in h.descriptors
    ensures var p := NextListener(h.descriptors[fd]);
            p != ILLEGAL_PORT && p in Ports(h.descriptors[fd]) && Tokens(h.descriptors[fd], p) > 0
  {
    assert InStep(h, fd);
    var d := h.descriptors[fd];
    if d.Multiple? {
      TurnHasToken(d.shared);
    }
  }

  /** Every event keeps the kernel in step, and touches no other descriptor. */
  lemma OnEventInv(h: Handler, e: Event)
    requires Inv(h) && e.fd in h.descriptors
    ensures Inv(OnEvent(h, e))
    ensures SameElsewhere(h, OnEvent(h, e), e.fd)
  {
    var d := h.descriptors[e.fd];
    assert InStep(h, e.fd);
    ChargeAllSound(d);
    ChargeNextSound(d);
    if EventMask(e) == ERROR_EVENT {
      var h1 := Notify(h, e.fd, Ports(d), ERROR_EVENT);
      ChangeInv(h, h1, e.fd, ChargeAll(d), e.addOk);
    } else if EventMask(e) != 0 {
      var h1 := Notify(h, e.fd, {NextListener(d)}, EventMask(e));
      ChangeInv(h, h1, e.fd, ChargeNext(d), e.addOk);
    }
  }

  // ----- token conservation -----

  /** For every port of one descriptor, tokens held and tokens owed add up to the budget. */
  ghost predicate Balanced(h: Handler, fd: Fd)
    requires fd in h.descriptors
  {
    var d := h.descriptors[fd];
    && (forall p :: p in Ports(d) ==> Tokens(d, p) + h.owed[(fd, p)] == Budget(d))
    && (d.Single? && d.port == ILLEGAL_PORT ==> d.tokens == SINGLE_TOKENS)
  }

  ghost predicate Solvent(h: Handler) {
    forall fd :: fd in h.descriptors ==> Balanced(h, fd)
  }

  ghost predicate SameOwedElsewhere(h: Handler, h': Handler, fd: Fd) {
    forall g, p :: g != fd ==> h'.owed[(g, p)] == h.owed[(g, p)]
  }

  lemma ElsewhereSolvent(h: Handler, h': Handler, fd: Fd)
    requires Solvent(h) && SameElsewhere(h, h', fd) && SameOwedElsewhere(h, h', fd)
    requires fd in h'.descriptors ==> Balanced(h', fd)
    ensures Solvent(h')
  {
    forall g | g in h'.descriptors
      ensures Balanced(h', g)
    {
      if g != fd {
        assert SameAt(h, h', g);
        assert Balanced(h, g);
      }
    }
  }

  lemma OwedAfterNotify(h: Handler, fd: Fd, ports: set<Port>, events: nat)
    ensures forall g, p :: Notify(h, fd, ports, events).owed[(g, p)] ==
                           h.owed[(g, p)] + (if g == fd && p in ports then 1 else 0)
  {
    var charged := set q | q in ports :: (fd, q);
    assert forall g, p :: (g, p) in charged <==> g == fd && p in ports;
  }

  lemma BroadcastBalanced(h: Handler, fd: Fd, events: nat)
    requires fd in h.descriptors && IsSound(h.descriptors[fd])
    requires Balanced(h, fd) && Mask(h.descriptors[fd]) != 0
    ensures Balanced(Broadcast(h, fd, events), fd)
    ensures SameOwedElsewhere(h, Broadcast(h, fd, events), fd)
  {
    OwedAfterNotify(h, fd, Ports(h.descriptors[fd]), events);
    ChargeAllSound(h.descriptors[fd]);
  }

  lemma AddBalanced(h: Handler, fd: Fd, addOk: bool)
    requires fd in h.descriptors && IsSound(h.descriptors[fd])
    requires Balanced(h, fd) && Mask(h.descriptors[fd]) != 0
    ensures var h' := AddToEpoll(h, fd, addOk);
            fd in h'.descriptors && Balanced(h', fd) && SameOwedElsewhere(h, h', fd)
  {
    BroadcastBalanced(h.(epoll := h.epoll.(lastAdd := h.epoll.lastAdd[fd := false])), fd, CLOSE_EVENT);
  }

  /** A refused ADD charges every port of the descriptor, once. */
  lemma UpdateBalanced(h: Handler, oldMask: nat, fd: Fd, addOk: bool)
    requires fd in h.descriptors && IsSound(h.descriptors[fd]) && Balanced(h, fd)
    ensures var h' := UpdateEpoll(h, oldMask, fd, addOk);
            fd in h'.descriptors && Balanced(h', fd) && SameOwedElsewhere(h, h', fd)
  {
    if Mask(h.descriptors[fd]) != 0 {
      AddBalanced(h, fd, addOk);
      AddBalanced(RemoveFromEpoll(h, fd), fd, addOk);
    }
  }

  /** A change of one descriptor together with its entries in the ledger (`h1` differs from `h` only there). */
  lemma ChangeSolvent(h: Handler, h1: Handler, fd: Fd, d: Descriptor, addOk: bool)
    requires Inv(h) && Solvent(h) && fd in h.descriptors
    requires SameDescriptors(h, h1) && SameOwedElsewhere(h, h1, fd)
    requires IsSound(d) && d.Single? == h.descriptors[fd].Single?
    requires Balanced(h1.(descriptors := h1.descriptors[fd := d]), fd)
    ensures Solvent(Change(h1, fd, d, addOk))
  {
    ChangeInv(h, h1, fd, d, addOk);
    UpdateBalanced(h1.(descriptors := h1.descriptors[fd := d]), Mask(h.descriptors[fd]), fd, addOk);
    ElsewhereSolvent(h, Change(h1, fd, d, addOk), fd);
  }

  /** An event of a batch charges the notified ports, and no one else. */
  lemma OnEventSolvent(h: Handler, e: Event)
    requires Inv(h) && Solvent(h) && e.fd in h.epoll.registered
    ensures e.fd in h.descriptors && Solvent(OnEvent(h, e))
  {
    RegisteredHasListener(h, e.fd);
    var d := h.descriptors[e.fd];
    assert InStep(h, e.fd) && Balanced(h, e.fd);
    ChargeAllSound(d);
    ChargeNextSound(d);
    if EventMask(e) == ERROR_EVENT {
      OwedAfterNotify(h, e.fd, Ports(d), ERROR_EVENT);
      ChangeSolvent(h, Notify(h, e.fd, Ports(d), ERROR_EVENT), e.fd, ChargeAll(d), e.addOk);
    } else if EventMask(e) != 0 {
      OwedAfterNotify(h, e.fd, {NextListener(d)}, EventMask(e));
      ChangeSolvent(h, Notify(h, e.fd, {NextListener(d)}, EventMask(e)), e.fd, ChargeNext(d), e.addOk);
    }
  }

  /** A client returns no more tokens than were charged to it. */
  predicate IsHonest(h: Handler, m: Message) {
    m.ToSocket? && IsCommand(m.data, RETURN_TOKEN_COMMAND) ==> TokenCount(m.data) <= h.owed[(m.fd, m.port)]
  }

  lemma LookupSolvent(h: Handler, fd: Fd, isListening: bool)
    requires Solvent(h)
    ensures Solvent(Lookup(h, fd, isListening))
  {
    var h' := Lookup(h, fd, isListening);
    forall g | g in h'.descriptors
      ensures Balanced(h', g)
    {
      if g in h.descriptors {
        assert Balanced(h, g);
      }
    }
  }

  /** A closed single descriptor is forgotten, whatever its balance. */
  lemma ForgetSolvent(h: Handler, h1: Handler, fd: Fd)
    requires Inv(h) && Solvent(h) && Inv(h1) && SameElsewhere(h, h1, fd) && h1.owed == h.owed
    requires fd !in h1.epoll.registered
    ensures Solvent(Forget(h1, fd))
  {
    ForgetInv(h1, fd);
    SameElsewhereTrans(h, h1, Forget(h1, fd), fd);
    ElsewhereSolvent(h, Forget(h1, fd), fd);
  }

  lemma PostedSolvent(h: Handler, posted: multiset<Post>)
    requires Solvent(h)
    ensures Solvent(h.(posted := posted))
  {
    forall g | g in h.descriptors
      ensures Balanced(h.(posted := posted), g)
    {
      assert Balanced(h, g);
    }
  }

  lemma OnCloseSolvent(h: Handler, m: Message)
    requires Inv(h) && Solvent(h) && m.ToSocket? && m.fd in h.descriptors
    requires IsCommand(m.data, CLOSE_COMMAND) && IsWellFormedFor(h.descriptors[m.fd], m)
    ensures Solvent(OnClose(h, m))
  {
    var d := h.descriptors[m.fd];
    var gone := WithoutCloser(d, m);
    var h1 := Change(h, m.fd, gone, m.addOk);
    assert InStep(h, m.fd) && Balanced(h, m.fd);
    RemoveSound(d, m.port);
    OnCloseInv(h, m);
    var h2 := if IsDeleted(d, m) then Forget(h1, m.fd) else h1;
    if d.Single? {
      ForgetSolvent(h, h1, m.fd);
    } else {
      ChangeSolvent(h, h, m.fd, gone, m.addOk);
      if m.closeSafe { ForgetSolvent(h1, h1, m.fd); }
    }
    PostedSolvent(h2, OnClose(h, m).posted);
  }

  lemma OnReturnTokensSolvent(h: Handler, m: Message)
    requires Inv(h) && Solvent(h) && m.ToSocket? && m.fd in h.descriptors && m.port in Ports(h.descriptors[m.fd])
    requires TokenCount(m.data) <= h.owed[(m.fd, m.port)]
    ensures Solvent(OnReturnTokens(h, m))
  {
    var d, key, count := h.descriptors[m.fd], (m.fd, m.port), TokenCount(m.data);
    assert InStep(h, m.fd) && Balanced(h, m.fd);
    GiveBackSound(d, m.port, count);
    var h1 := h.(owed := h.owed[key := h.owed[key] - count]);
    ChangeSolvent(h, h1, m.fd, GiveBack(d, m.port, count), m.addOk);
  }

  lemma OnSetEventMaskSolvent(h: Handler, m: Message)
    requires Inv(h) && Solvent(h) && m.ToSocket? && m.fd in h.descriptors
    requires m.port != ILLEGAL_PORT && EventBits(m.data) <= IN_EVENT + OUT_EVENT
    requires var d := h.descriptors[m.fd]; d.Single? ==> d.port == ILLEGAL_PORT || d.port == m.port
    ensures Solvent(OnSetEventMask(h, m))
  {
    var d := h.descriptors[m.fd];
    assert InStep(h, m.fd) && Balanced(h, m.fd);
    SetSound(d, m.port, EventBits(m.data));
    var h1 := if m.port in Ports(d) then h else h.(owed := h.owed[(m.fd, m.port) := 0]);
    ChangeSolvent(h, h1, m.fd, SetPortAndMask(d, m.port, EventBits(m.data)), m.addOk);
  }

  /** Every well-formed message from an honest client keeps every account balanced. */
  lemma OnMessageSolvent(h: Handler, m: Message)
    requires Inv(h) && Solvent(h) && IsWellFormed(h, m) && IsHonest(h, m)
    ensures Solvent(OnMessage(h, m))
  {
    if m.ToSocket? && m.fd != -1 {
      var h1 := Lookup(h, m.fd, IsListeningSocket(m.data));
      LookupInv(h, m.fd, IsListeningSocket(m.data));
      LookupSolvent(h, m.fd, IsListeningSocket(m.data));
      if IsCommand(m.data, CLOSE_COMMAND) {
        OnCloseSolvent(h1, m);
      } else if IsCommand(m.data, RETURN_TOKEN_COMMAND) {
        OnReturnTokensSolvent(h1, m);
      } else if IsCommand(m.data, SET_EVENT_MASK_COMMAND) {
        OnSetEventMaskSolvent(h1, m);
      }
    } else if m.Shutdown? {
      forall g | g in h.descriptors
        ensures Balanced(OnMessage(h, m), g)
      {
        assert Balanced(h, g);
      }
    }
  }

  // ----- runs -----

  /** One wake-up: a batch, and the messages in the interrupt pipe. */
  datatype Poll = Poll(batch: seq<Report>, messages: seq<Message>)

  /** A report is dispatched at once only if it is about a descriptor. */
  function OnReport(h: Handler, r: Report): Handler
    requires r.Ready? ==> r.event.fd in h.descriptors
  {
    if r.Ready? then OnEvent(h, r.event) else h
  }

  ghost predicate CanHandleEvents(h: Handler, batch: seq<Report>)
    decreases |batch|
  {
    batch == [] ||
    ((batch[0].Ready? ==> batch[0].event.fd in h.descriptors) && CanHandleEvents(OnReport(h, batch[0]), batch[1..]))
  }

  ghost function OnEvents(h: Handler, batch: seq<Report>): Handler
    requires CanHandleEvents(h, batch)
    decreases |batch|
  {
    if batch == [] then h else OnEvents(OnReport(h, batch[0]), batch[1..])
  }

  ghost predicate CanHandleMessages(h: Handler, messages: seq<Message>)
    decreases |messages|
  {
    messages == [] || (IsWellFormed(h, messages[0]) && CanHandleMessages(OnMessage(h, messages[0]), messages[1..]))
  }

  ghost predicate AreHonest(h: Handler, messages: seq<Message>)
    requires CanHandleMessages(h, messages)
    decreases |messages|
  {
    messages == [] || (IsHonest(h, messages[0]) && AreHonest(OnMessage(h, messages[0]), messages[1..]))
  }

  ghost function OnMessages(h: Handler, messages: seq<Message>): Handler
    requires CanHandleMessages(h, messages)
    decreases |messages|
  {
    if messages == [] then h else OnMessages(OnMessage(h, messages[0]), messages[1..])
  }

  lemma BatchRest(h: Handler, batch: seq<Report>)
    requires Inv(h) && IsBatch(h, batch) && batch != []
    ensures batch[0].Ready? ==> batch[0].event.fd in h.descriptors
    ensures Inv(OnReport(h, batch[0])) && IsBatch(OnReport(h, batch[0]), batch[1..])
  {
    if batch[0].Ready? {
      var e := batch[0].event;
      RegisteredHasListener(h, e.fd);
      OnEventInv(h, e);
      var h' := OnEvent(h, e);
      forall i | 0 <= i < |batch| - 1 && batch[1..][i].Ready?
        ensures batch[1..][i].event.fd in h'.epoll.registered
      {
        assert SameAt(h, h', batch[i + 1].event.fd);
      }
    }
  }

  /** A batch can be handled to its end; the kernel stays in step and the accounts balanced. */
  lemma {:induction false} BatchInv(h: Handler, batch: seq<Report>)
    requires Inv(h) && IsBatch(h, batch)
    ensures CanHandleEvents(h, batch)
    ensures Inv(OnEvents(h, batch))
    ensures Solvent(h) ==> Solvent(OnEvents(h, batch))
    decreases |batch|
  {
    if batch != [] {
      BatchRest(h, batch);
      if Solvent(h) && batch[0].Ready? { OnEventSolvent(h, batch[0].event); }
      BatchInv(OnReport(h, batch[0]), batch[1..]);
    }
  }

  /**
   No event of a batch reaches a deleted descriptor: at its turn its descriptor is still
   registered and alive, and the port it would notify is a real one that holds a token.
   */
  lemma {:induction false} DispatchIsSafe(h: Handler, batch: seq<Report>, i: nat)
    requires Inv(h) && IsBatch(h, batch) && i < |batch| && batch[i].Ready?
    ensures CanHandleEvents(h, batch[..i])
    ensures var g, fd := OnEvents(h, batch[..i]), batch[i].event.fd;
            && fd in g.epoll.registered && fd in g.descriptors
            && (var d := g.descriptors[fd];
                var p := NextListener(d);
                p != ILLEGAL_PORT && p in Ports(d) && Tokens(d, p) > 0)
    decreases i
  {
    if i == 0 {
      RegisteredHasListener(h, batch[0].event.fd);
    } else {
      BatchRest(h, batch);
      assert batch[..i][0] == batch[0] && batch[..i][1..] == batch[1..][..i - 1];
      DispatchIsSafe(OnReport(h, batch[0]), batch[1..], i - 1);
    }
  }

  lemma {:induction false} MessagesInv(h: Handler, messages: seq<Message>)
    requires Inv(h) && CanHandleMessages(h, messages)
    ensures Inv(OnMessages(h, messages))
    ensures Solvent(h) && AreHonest(h, messages) ==> Solvent(OnMessages(h, messages))
    decreases |messages|
  {
    if messages != [] {
      OnMessageInv(h, messages[0]);
      if Solvent(h) && IsHonest(h, messages[0]) { OnMessageSolvent(h, messages[0]); }
      MessagesInv(OnMessage(h, messages[0]), messages[1..]);
    }
  }

  /** A batch that the kernel may report now, and well-formed messages if it says that there are some. */
  ghost predicate CanPoll(h: Handler, poll: Poll) {
    && IsBatch(h, poll.batch)
    && CanHandleEvents(h, poll.batch)
    && (Interrupt in poll.batch ==> CanHandleMessages(OnEvents(h, poll.batch), poll.messages))
  }

  /** The messages wait until the whole batch has been dispatched, wherever in it they were reported. */
  ghost function OnPoll(h: Handler, poll: Poll): Handler
    requires CanPoll(h, poll)
  {
    var g := OnEvents(h, poll.batch);
    if Interrupt in poll.batch then OnMessages(g, poll.messages) else g
  }

  ghost predicate IsRun(h: Handler, polls: seq<Poll>)
    decreases |polls|
  {
    polls == [] || (CanPoll(h, polls[0]) && IsRun(OnPoll(h, polls[0]), polls[1..]))
  }

  ghost predicate IsHonestRun(h: Handler, polls: seq<Poll>)
    requires IsRun(h, polls)
    decreases |polls|
  {
    polls == [] ||
    (&& (Interrupt in polls[0].batch ==> AreHonest(OnEvents(h, polls[0].batch), polls[0].messages))
     && IsHonestRun(OnPoll(h, polls[0]), polls[1..]))
  }

  ghost function After(h: Handler, polls: seq<Poll>): Handler
    requires IsRun(h, polls)
    decreases |polls|
  {
    if polls == [] then h else After(OnPoll(h, polls[0]), polls[1..])
  }

  lemma {:induction false} RunInv(h: Handler, polls: seq<Poll>)
    requires Inv(h) && IsRun(h, polls)
    ensures Inv(After(h, polls))
    ensures Solvent(h) && IsHonestRun(h, polls) ==> Solvent(After(h, polls))
    decreases |polls|
  {
    if polls != [] {
      BatchInv(h, polls[0].batch);
      if Interrupt in polls[0].batch {
        MessagesInv(OnEvents(h, polls[0].batch), polls[0].messages);
      }
      RunInv(OnPoll(h, polls[0]), polls[1..]);
    }
  }

  lemma OneMessage(h: Handler, m: Message)
    requires IsWellFormed(h, m)
    ensures CanHandleMessages(h, [m]) && OnMessages(h, [m]) == OnMessage(h, m)
  {
    assert [m][1..] == [];
  }

  lemma CommandBits()
    ensures forall bit :: CLOSE_COMMAND <= bit <= SET_EVENT_MASK_COMMAND ==>
              (IsCommand(256, bit) <==> bit == CLOSE_COMMAND)
    ensures forall bit :: CLOSE_COMMAND <= bit <= SET_EVENT_MASK_COMMAND ==>
              (IsCommand(4097, bit) <==> bit == SET_EVENT_MASK_COMMAND)
    ensures !IsListeningSocket(256) && !IsListeningSocket(4097)
    ensures EventBits(4097) == IN_EVENT
  {
    assert Pow2(4) == 16 && Pow2(8) == 256 && Pow2(12) == 4096 && Pow2(16) == 65536;
  }

  /** A message that registers a new descriptor for input. */
  lemma Registers(fd: Fd, port: Port) returns (m: Message)
    requires fd != -1 && port != ILLEGAL_PORT
    ensures IsWellFormed(Start(), m)
    ensures var h := OnMessage(Start(), m);
            && fd in h.epoll.registered && fd in h.descriptors
            && h.descriptors[fd] == Single(port, SINGLE_TOKENS, IN_EVENT)
  {
    CommandBits();
    hide Pow2;
    m := ToSocket(fd, port, 4097, false, true);
  }

  /** A message that closes a descriptor with one port. */
  lemma Closes(h: Handler, fd: Fd, port: Port) returns (m: Message)
    requires fd != -1 && port != ILLEGAL_PORT
    requires fd in h.descriptors && h.descriptors[fd].Single? && h.descriptors[fd].port == port
    ensures m == ToSocket(fd, port, 256, false, true) && IsWellFormed(h, m) && fd !in OnMessage(h, m).descriptors
  {
    CommandBits();
    hide Pow2;
    m := ToSocket(fd, port, 256, false, true);
  }

  lemma OneEvent(h: Handler, e: Event)
    requires e.fd in h.descriptors
    ensures CanHandleEvents(h, [Interrupt, Ready(e)]) && OnEvents(h, [Interrupt, Ready(e)]) == OnEvent(h, e)
  {
    assert [Interrupt, Ready(e)][1..] == [Ready(e)] && [Ready(e)][1..] == [];
    assert CanHandleEvents(h, [Ready(e)]) && OnEvents(h, [Ready(e)]) == OnEvent(h, e);
  }

  /** The descriptor of an event stays, with its port. */
  lemma EventKeeps(h: Handler, e: Event)
    requires e.fd in h.descriptors && h.descriptors[e.fd].Single?
    ensures var g := OnEvent(h, e);
            e.fd in g.descriptors && g.descriptors[e.fd].Single? && g.descriptors[e.fd].port == h.descriptors[e.fd].port
  {
  }

  /**
   Why the messages must wait: handled at once, a close in front of an event of the same batch
   would delete the descriptor that the event is for.
   */
  lemma HandlingAtOnceIsUnsafe() returns (first: Poll, second: Poll)
    ensures IsRun(Start(), [first, second])
    ensures var h := OnPoll(Start(), first);
            && |second.batch| == 2 && second.batch[0].Interrupt? && second.batch[1].Ready?
            && second.batch[1].event.fd in h.descriptors && CanHandleMessages(h, second.messages)
            && second.batch[1].event.fd !in OnMessages(h, second.messages).descriptors
  {
    hide OnEvent, OnMessage, IsWellFormed;
    var opening := Registers(3, 7);
    var h := OnMessage(Start(), opening);
    first := Poll([Interrupt], [opening]);
    assert [Interrupt][1..] == [];
    OneMessage(Start(), opening);
    assert OnPoll(Start(), first) == h;
    var e := Event(3, true, false, false, false, true);
    var closing := Closes(h, 3, 7);
    second := Poll([Interrupt, Ready(e)], [closing]);
    OneMessage(h, closing);
    OneEvent(h, e);
    EventKeeps(h, e);
    var again := Closes(OnEvent(h, e), 3, 7);
    OneMessage(OnEvent(h, e), closing);
    assert [first, second][1..] == [second] && [second][1..] == [];
    assert CanPoll(Start(), first) && CanPoll(h, second);
    assert IsRun(h, [second]);
  }

  /**
   The kernel is in step after every run: a descriptor is registered exactly when its mask is
   non-zero and its latest ADD was not refused, and then for exactly that mask; nothing but
   live descriptors is registered.
   */
  lemma RegistrationInvariant(polls: seq<Poll>, fd: Fd)
    requires IsRun(Start(), polls)
    ensures var h := After(Start(), polls);
            && (fd in h.epoll.registered ==> fd in h.descriptors)
            && (fd in h.descriptors ==>
                  (fd in h.epoll.registered <==> Mask(h.descriptors[fd]) != 0 && !AddRefused(h, fd)))
            && (fd in h.epoll.registered ==>
                  h.epoll.registered[fd] ==
                  match h.descriptors[fd]
                  case Multiple(_) => Interest(true, false, false)
                  case Single(_, _, mask) => Interest(mask == 1 || mask == 3, mask == 2 || mask == 3, true))
  {
    RunInv(Start(), polls);
    var h := After(Start(), polls);
    if fd in h.descriptors {
      assert InStep(h, fd);
    } else {
      assert fd !in h.epoll.registered.Keys;
    }
  }

  /**
   Tokens are conserved over every run with honest clients: for each port of each live
   descriptor, tokens held plus tokens owed is the budget, 16 alone and 4 shared, so no
   balance ever exceeds it.
   */
  lemma TokensAreConserved(polls: seq<Poll>, fd: Fd, p: Port)
    requires IsRun(Start(), polls) && IsHonestRun(Start(), polls)
    requires var h := After(Start(), polls); fd in h.descriptors && p in Ports(h.descriptors[fd])
    ensures var h := After(Start(), polls);
            var d := h.descriptors[fd];
            && Tokens(d, p) + h.owed[(fd, p)] == (if d.Single? then 16 else 4)
            && Tokens(d, p) <= (if d.Single? then 16 else 4)
  {
    RunInv(Start(), polls);
    var h := After(Start(), polls);
    assert Balanced(h, fd);
    assert h.owed[(fd, p)] >= 0;
  }
}
