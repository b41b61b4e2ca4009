/**
 What messages and events do, in terms of what can be seen of a descriptor: its ports, what
 each of them wants, the tokens each holds, and what is posted. And over whole runs: every
 port wants what its latest message asked for, and the kernel watches for just that.
 */
module HandlerEffects {
  import opened Basics
  import opened SharedPorts
  import opened PortEffects
  import opened EpollProtocol
  import opened SocketMessages
  import opened DispatchFairness

  // ----- what can be seen of a descriptor -----

  /** What a port wants to be told: bit 0 for input, bit 1 for output. */
  function Wants(d: Descriptor, p: Port): nat
    requires p in Ports(d)
  {
    match d
    case Single(_, _, mask) => mask
    case Multiple(shared) => if shared.ports[p].reading then 1 else 0
  }

  /** Some port that holds a token wants input. */
  ghost predicate WantsInput(d: Descriptor) {
    exists p :: p in Ports(d) && Tokens(d, p) > 0 && Wants(d, p) % 2 == 1
  }

  /** Some port that holds a token wants output. */
  ghost predicate WantsOutput(d: Descriptor) {
    exists p :: p in Ports(d) && Tokens(d, p) > 0 && Wants(d, p) >= 2
  }

  /** The same kind, and the same ports, wants and tokens but for those of `p`. */
  ghost predicate SameBut(d: Descriptor, d': Descriptor, p: Port) {
    && d'.Single? == d.Single?
    && (forall q :: q != p ==> (q in Ports(d') <==> q in Ports(d)))
    && (forall q :: q != p && q in Ports(d) ==> Wants(d', q) == Wants(d, q) && Tokens(d', q) == Tokens(d, q))
  }

  /** `d'` is `d` after every port has paid one token. */
  ghost predicate AllPaid(d: Descriptor, d': Descriptor) {
    && d'.Single? == d.Single? && Ports(d') == Ports(d)
    && (forall p :: p in Ports(d) ==> Wants(d', p) == Wants(d, p) && Tokens(d', p) == Tokens(d, p) - 1)
  }

  lemma SharedMask(d: Descriptor)
    requires IsSound(d) && d.Multiple?
    ensures Mask(d) == (if WantsInput(d) then 1 else 0) && !WantsOutput(d)
  {
    if d.shared.active != [] {
      var p := d.shared.active[0];
      assert p in d.shared.active && IsReady(d.shared, p);
      assert p in Ports(d) && Tokens(d, p) > 0 && Wants(d, p) % 2 == 1;
    }
    forall p | p in Ports(d) && Tokens(d, p) > 0 && Wants(d, p) % 2 == 1
      ensures d.shared.active != []
    {
      assert IsReady(d.shared, p) && p in d.shared.active;
    }
  }

  /** The mask of a descriptor is what its ports with tokens want, taken together. */
  lemma MaskIsWanted(d: Descriptor)
    requires IsSound(d)
    ensures Mask(d) == MaskOf(WantsInput(d), WantsOutput(d))
  {
    match d
    case Multiple(_) => SharedMask(d);
    case Single(p, tokens, mask) =>
      if p in Ports(d) && tokens > 0 {
        assert Wants(d, p) == mask && Tokens(d, p) == tokens;
        assert WantsInput(d) <==> mask % 2 == 1;
        assert WantsOutput(d) <==> mask >= 2;
      }
  }

  lemma NewDescriptorIsUnused(isListening: bool)
    ensures var d := NewDescriptor(isListening);
            IsSound(d) && Ports(d) == {} && (d.Single? <==> !isListening) && (d.Single? ==> d.tokens == 16)
  {
  }

  lemma ChargeAllEffect(d: Descriptor)
    requires IsSound(d)
    ensures AllPaid(d, ChargeAll(d))
  {
    if d.Multiple? {
      forall p | p in Ports(d)
        ensures Wants(ChargeAll(d), p) == Wants(d, p) && Tokens(ChargeAll(d), p) == Tokens(d, p) - 1
      {
        NotifyAllEffect(d.shared, p, p);
      }
      NotifyAllAgrees(d.shared);
    }
  }

  lemma ChargeNextEffect(d: Descriptor)
    requires IsSound(d) && Mask(d) != 0
    ensures var d', p := ChargeNext(d), NextListener(d);
            && SameBut(d, d', p) && p in Ports(d) && p in Ports(d')
            && Wants(d', p) == Wants(d, p) && Tokens(d', p) == Tokens(d, p) - 1
            && Tokens(d, p) > 0 && Wants(d, p) != 0
  {
    if d.Multiple? {
      var p := d.shared.active[0];
      assert p in d.shared.active && IsReady(d.shared, p);
      NotifyNextEffect(d.shared);
    }
  }

  lemma SetMaskEffect(d: Descriptor, p: Port, mask: nat)
    requires IsSound(d) && p != 0 && mask <= 3
    requires if d.Single? then d.port == 0 || d.port == p else mask <= 1
    ensures var d' := SetPortAndMask(d, p, mask);
            && SameBut(d, d', p) && p in Ports(d') && Wants(d', p) == mask
            && Tokens(d', p) == if p in Ports(d) then Tokens(d, p) else if d.Single? then d.tokens else 4
  {
    if d.Multiple? {
      SetReadingEffect(d.shared, p, mask == 1);
    }
  }

  lemma RemoveEffect(d: Descriptor, p: Port)
    requires IsSound(d) && (d.Single? ==> d.port == 0 || d.port == p)
    ensures SameBut(d, RemoveListener(d, p), p) && p !in Ports(RemoveListener(d, p))
  {
    if d.Multiple? {
      RemovePortEffect(d.shared, p);
    }
  }

  lemma GiveBackEffect(d: Descriptor, p: Port, count: nat)
    requires IsSound(d) && p in Ports(d)
    ensures var d' := GiveBack(d, p, count);
            && SameBut(d, d', p) && p in Ports(d')
            && Wants(d', p) == Wants(d, p) && Tokens(d', p) == Tokens(d, p) + count
  {
    if d.Multiple? {
      ReturnTokensEffect(d.shared, p, count);
    }
  }

  // ----- telling the kernel -----

  function PostsTo(fd: Fd, ports: set<Port>, events: nat): multiset<Post> {
    multiset(set p | p in ports :: Post(fd, p, events))
  }

  /** The descriptor is to become `d`, with another mask that is not empty, and the kernel refuses it. */
  predicate IsRefused(h: Handler, fd: Fd, d: Descriptor, addOk: bool)
    requires fd in h.descriptors
  {
    !addOk && Mask(d) != 0 && Mask(d) != Mask(h.descriptors[fd])
  }

  /** `h'` is `h` with the descriptor `d`. If the kernel refuses it, every port pays for being told so. */
  ghost predicate Becomes(h: Handler, h': Handler, fd: Fd, d: Descriptor, addOk: bool)
    requires fd in h.descriptors
  {
    && SameElsewhere(h, h', fd) && fd in h'.descriptors && h'.shutdown == h.shutdown
    && (if IsRefused(h, fd, d, addOk)
        then AllPaid(d, h'.descriptors[fd]) && h'.posted == h.posted + PostsTo(fd, Ports(d), 8)
        else h'.descriptors[fd] == d && h'.posted == h.posted)
  }

  lemma ChangeBecomes(h: Handler, h1: Handler, fd: Fd, d: Descriptor, addOk: bool)
    requires Inv(h) && SameDescriptors(h, h1) && fd in h.descriptors
    requires IsSound(d) && d.Single? == h.descriptors[fd].Single?
    ensures Becomes(h.(posted := h1.posted, shutdown := h1.shutdown), Change(h1, fd, d, addOk), fd, d, addOk)
  {
    ChangeInv(h, h1, fd, d, addOk);
    ChargeAllEffect(d);
    assert InStep(h, fd);
    var h' := Change(h1, fd, d, addOk);
    forall g | g != fd
      ensures SameAt(h.(posted := h1.posted, shutdown := h1.shutdown), h', g)
    {
      assert SameAt(h, h', g);
    }
  }

  // ----- messages -----

  /** The message of a port that the Dart side sends for a command. */
  ghost predicate Says(m: Message, command: Command, isListening: bool) {
    m.ToSocket? && m.fd != -1 && IsValid(command) && m.data == Word(command, isListening)
  }

  /** The descriptor that a message is for; the first one for a socket makes it. */
  function Found(h: Handler, fd: Fd, isListening: bool): Descriptor {
    if fd in h.descriptors then h.descriptors[fd] else NewDescriptor(isListening)
  }

  /** The handler once that descriptor is there. */
  function With(h: Handler, fd: Fd, isListening: bool): Handler {
    h.(descriptors := h.descriptors[fd := Found(h, fd, isListening)])
  }

  lemma LookupIsWith(h: Handler, fd: Fd, isListening: bool)
    requires Inv(h)
    ensures Lookup(h, fd, isListening) == With(h, fd, isListening) && Inv(With(h, fd, isListening))
    ensures InStep(With(h, fd, isListening), fd) && IsSound(Found(h, fd, isListening))
  {
    LookupInv(h, fd, isListening);
    if fd in h.descriptors {
      assert h.descriptors[fd := h.descriptors[fd]] == h.descriptors;
    }
    assert InStep(Lookup(h, fd, isListening), fd);
  }

  /** The port wants what the message says from then on; new ports start with a full budget. */
  lemma SetMaskMessage(h: Handler, m: Message, read: bool, write: bool, isListening: bool) returns (d: Descriptor)
    requires Inv(h) && Says(m, SetEventMask(read, write), isListening) && IsWellFormed(h, m)
    ensures Becomes(With(h, m.fd, isListening), OnMessage(h, m), m.fd, d, m.addOk)
    ensures var was := Found(h, m.fd, isListening);
            && SameBut(was, d, m.port) && m.port in Ports(d) && Wants(d, m.port) == MaskOf(read, write)
            && Tokens(d, m.port) ==
               if m.port in Ports(was) then Tokens(was, m.port) else if d.Single? then was.tokens else 4
  {
    hide Word, IsCommand, IsListeningSocket, EventBits, Change;
    WordIsUnderstood(SetEventMask(read, write), isListening);
    LookupIsWith(h, m.fd, isListening);
    var h1, was := With(h, m.fd, isListening), Found(h, m.fd, isListening);
    d := SetPortAndMask(was, m.port, MaskOf(read, write));
    SetMaskEffect(was, m.port, MaskOf(read, write));
    SetSound(was, m.port, MaskOf(read, write));
    var h2 := if m.port in Ports(was) then h1 else h1.(owed := h1.owed[(m.fd, m.port) := 0]);
    ChangeBecomes(h1, h2, m.fd, d, m.addOk);
  }

  /** The tokens are added to those of the port. */
  lemma ReturnTokensMessage(h: Handler, m: Message, count: nat, isListening: bool) returns (d: Descriptor)
    requires Inv(h) && Says(m, ReturnTokens(count), isListening) && IsWellFormed(h, m)
    ensures Becomes(With(h, m.fd, isListening), OnMessage(h, m), m.fd, d, m.addOk)
    ensures var was := Found(h, m.fd, isListening);
            && SameBut(was, d, m.port) && m.port in Ports(was) && m.port in Ports(d)
            && Wants(d, m.port) == Wants(was, m.port) && Tokens(d, m.port) == Tokens(was, m.port) + count
  {
    hide Word, IsCommand, IsListeningSocket, TokenCount, Change;
    WordIsUnderstood(ReturnTokens(count), isListening);
    LookupIsWith(h, m.fd, isListening);
    var h1, was, key := With(h, m.fd, isListening), Found(h, m.fd, isListening), (m.fd, m.port);
    d := GiveBack(was, m.port, count);
    GiveBackEffect(was, m.port, count);
    GiveBackSound(was, m.port, count);
    var h2 := h1.(owed := h1.owed[key := if count <= h1.owed[key] then h1.owed[key] - count else 0]);
    ChangeBecomes(h1, h2, m.fd, d, m.addOk);
  }

  /** The port is gone, and so is the descriptor if it was its only one or the last socket; the port is told. */
  lemma CloseMessage(h: Handler, m: Message, isListening: bool) returns (d: Descriptor, g: Handler)
    requires Inv(h) && Says(m, Close, isListening) && IsWellFormed(h, m)
    ensures var h', was := OnMessage(h, m), Found(h, m.fd, isListening);
            && SameBut(was, d, m.port) && m.port !in Ports(d)
            && Becomes(With(h, m.fd, isListening), g, m.fd, d, m.addOk)
            && h'.posted == g.posted + multiset{Post(m.fd, m.port, 16)} && h'.shutdown == h.shutdown
            && h'.descriptors == (if was.Single? || m.closeSafe then g.descriptors - {m.fd} else g.descriptors)
            && (was.Single? || m.closeSafe ==> !IsRefused(With(h, m.fd, isListening), m.fd, d, m.addOk))
  {
    hide Word, IsCommand, IsListeningSocket, Change;
    WordIsUnderstood(Close, isListening);
    LookupIsWith(h, m.fd, isListening);
    var h1, was := With(h, m.fd, isListening), Found(h, m.fd, isListening);
    d := WithoutCloser(was, m);
    RemoveSound(was, m.port);
    if m.port != 0 {
      RemoveEffect(was, m.port);
    }
    g := Change(h1, m.fd, d, m.addOk);
    ChangeBecomes(h1, h1, m.fd, d, m.addOk);
  }

  /** Nothing but the descriptor is made for a shutdown of one direction, which is left to the socket. */
  lemma ShutdownMessage(h: Handler, m: Message, isListening: bool)
    requires Inv(h) && (Says(m, ShutdownRead, isListening) || Says(m, ShutdownWrite, isListening))
    requires IsWellFormed(h, m)
    ensures OnMessage(h, m) == With(h, m.fd, isListening)
  {
    hide Word, IsCommand, IsListeningSocket;
    WordIsUnderstood(ShutdownRead, isListening);
    WordIsUnderstood(ShutdownWrite, isListening);
    LookupIsWith(h, m.fd, isListening);
  }

  /** Messages for the timer, and for sockets that are closed already, change nothing; one ends the handler. */
  lemma OtherMessage(h: Handler, m: Message)
    requires m.ToSocket? ==> m.fd == -1
    ensures OnMessage(h, m) == if m.Shutdown? then h.(shutdown := true) else h
  {
  }

  // ----- events -----

  /** The bits of an event without an error: 1 for input, 2 for output, 8 if the peer hung up. */
  function BitsOf(e: Event): nat {
    MaskOf(e.input, e.output) + if e.hangUp then 8 else 0
  }

  /** An error that comes with input is posted to every port, and each pays a token; without input it is ignored. */
  lemma ErrorEffect(h: Handler, e: Event) returns (d: Descriptor)
    requires Inv(h) && e.fd in h.epoll.registered && e.error
    ensures e.fd in h.descriptors
    ensures var h', was := OnEvent(h, e), h.descriptors[e.fd];
            if !e.input then h' == h
            else
              && AllPaid(was, d)
              && Becomes(h.(posted := h.posted + PostsTo(e.fd, Ports(was), 4)), h', e.fd, d, e.addOk)
  {
    hide Change;
    RegisteredHasListener(h, e.fd);
    assert InStep(h, e.fd);
    var was := h.descriptors[e.fd];
    d := ChargeAll(was);
    ChargeAllSound(was);
    ChargeAllEffect(was);
    ChangeBecomes(h, Notify(h, e.fd, Ports(was), 4), e.fd, d, e.addOk);
  }

  /** Anything else is posted to the next port alone, which pays a token. */
  lemma TurnEffect(h: Handler, e: Event) returns (d: Descriptor)
    requires Inv(h) && e.fd in h.epoll.registered && !e.error
    ensures e.fd in h.descriptors
    ensures var h', was := OnEvent(h, e), h.descriptors[e.fd];
            var p := NextListener(was);
            if BitsOf(e) == 0 then h' == h
            else
              && SameBut(was, d, p) && p in Ports(was) && p in Ports(d)
              && Wants(d, p) == Wants(was, p) && Tokens(d, p) == Tokens(was, p) - 1
              && Becomes(h.(posted := h.posted + multiset{Post(e.fd, p, BitsOf(e))}), h', e.fd, d, e.addOk)
  {
    hide Change;
    RegisteredHasListener(h, e.fd);
    assert InStep(h, e.fd);
    var was := h.descriptors[e.fd];
    var p := NextListener(was);
    d := ChargeNext(was);
    ChargeNextSound(was);
    ChargeNextEffect(was);
    NotifyOne(h, e.fd, p, BitsOf(e));
    hide Notify, SameBut, BitsOf;
    ChangeBecomes(h, Notify(h, e.fd, {p}, BitsOf(e)), e.fd, d, e.addOk);
  }

  lemma NotifyOne(h: Handler, fd: Fd, p: Port, events: nat)
    ensures var h1 := Notify(h, fd, {p}, events);
            h1.posted == h.posted + multiset{Post(fd, p, events)} && SameDescriptors(h, h1) && h1.shutdown == h.shutdown
  {
    assert (set q | q in {p} :: Post(fd, q, events)) == {Post(fd, p, events)};
  }

  // ----- every run: the ports want what they asked for -----

  /** The step handles a message by which port `p` of `fd` sets its mask. */
  predicate IsAsking(step: Step, fd: Fd, p: Port) {
    && step.Handle? && step.message.ToSocket?
    && step.message.fd == fd && step.message.port == p && step.message.data / 0x100 % 0x20 == 0x10
  }

  /** The mask that the latest such message asked for. */
  function Asked(steps: seq<Step>, fd: Fd, p: Port): Option<nat> {
    if steps == [] then None
    else
      var n := |steps| - 1;
      if IsAsking(steps[n], fd, p) then Some(steps[n].message.data % 0x20) else Asked(steps[..n], fd, p)
  }

  lemma AskedThen(steps: seq<Step>, step: Step, fd: Fd, p: Port)
    ensures Asked(steps + [step], fd, p) ==
            if IsAsking(step, fd, p) then Some(step.message.data % 0x20) else Asked(steps, fd, p)
  {
    assert (steps + [step])[..|steps|] == steps;
  }

  ghost predicate IsAsAsked(d: Descriptor, steps: seq<Step>, fd: Fd) {
    forall p :: p in Ports(d) ==> Asked(steps, fd, p) == Some(Wants(d, p))
  }

  ghost predicate AllAsAsked(h: Handler, steps: seq<Step>) {
    -1 !in h.descriptors && forall fd :: fd in h.descriptors ==> IsAsAsked(h.descriptors[fd], steps, fd)
  }

  /** The same ports want the same. */
  ghost predicate SameWants(d: Descriptor, d': Descriptor) {
    Ports(d') == Ports(d) && forall p :: p in Ports(d) ==> Wants(d', p) == Wants(d, p)
  }

  lemma ChargeNextWants(d: Descriptor)
    requires IsSound(d)
    ensures SameWants(d, ChargeNext(d))
  {
    ChargeNextSound(d);
  }

  lemma ChangeWants(h: Handler, h1: Handler, fd: Fd, d: Descriptor, addOk: bool)
    requires Inv(h) && SameDescriptors(h, h1) && fd in h.descriptors
    requires IsSound(d) && d.Single? == h.descriptors[fd].Single?
    ensures var h' := Change(h1, fd, d, addOk);
            SameElsewhere(h, h', fd) && fd in h'.descriptors && SameWants(d, h'.descriptors[fd])
  {
    ChangeBecomes(h, h1, fd, d, addOk);
    ChangeInv(h, h1, fd, d, addOk);
  }

  /** A step that is about `fd` has only to answer for `fd`. */
  lemma StepElsewhere(h: Handler, h': Handler, steps: seq<Step>, step: Step, fd: Fd)
    requires AllAsAsked(h, steps) && SameElsewhere(h, h', fd) && fd != -1
    requires step.Handle? && step.message.ToSocket? ==> step.message.fd == fd
    requires fd in h'.descriptors ==> IsAsAsked(h'.descriptors[fd], steps + [step], fd)
    ensures AllAsAsked(h', steps + [step])
  {
    assert SameAt(h, h', -1);
    forall g | g in h'.descriptors
      ensures IsAsAsked(h'.descriptors[g], steps + [step], g)
    {
      if g != fd {
        assert SameAt(h, h', g) && IsAsAsked(h.descriptors[g], steps, g);
        forall p | p in Ports(h'.descriptors[g])
          ensures Asked(steps + [step], g, p) == Some(Wants(h'.descriptors[g], p))
        {
          AskedThen(steps, step, g, p);
        }
      }
    }
  }

  /** A step by which no port of `fd` asks for anything leaves it to keep what they want. */
  lemma StaysAsAsked(d: Descriptor, d': Descriptor, steps: seq<Step>, step: Step, fd: Fd)
    requires IsAsAsked(d, steps, fd)
    requires forall p :: p in Ports(d') ==> p in Ports(d) && Wants(d', p) == Wants(d, p) && !IsAsking(step, fd, p)
    ensures IsAsAsked(d', steps + [step], fd)
  {
    forall p | p in Ports(d')
      ensures Asked(steps + [step], fd, p) == Some(Wants(d', p))
    {
      AskedThen(steps, step, fd, p);
    }
  }

  lemma EventAsAsked(h: Handler, e: Event, steps: seq<Step>)
    requires Inv(h) && AllAsAsked(h, steps) && e.fd in h.descriptors
    ensures AllAsAsked(OnEvent(h, e), steps + [Dispatch(Ready(e))])
  {
    hide Change, Asked;
    var step, was := Dispatch(Ready(e)), h.descriptors[e.fd];
    assert InStep(h, e.fd) && IsAsAsked(was, steps, e.fd);
    OnEventInv(h, e);
    if EventMask(e) == ERROR_EVENT {
      ChargeAllEffect(was);
      ChargeAllSound(was);
      ChangeWants(h, Notify(h, e.fd, Ports(was), ERROR_EVENT), e.fd, ChargeAll(was), e.addOk);
    } else if EventMask(e) != 0 {
      ChargeNextWants(was);
      ChargeNextSound(was);
      ChangeWants(h, Notify(h, e.fd, {NextListener(was)}, EventMask(e)), e.fd, ChargeNext(was), e.addOk);
    }
    StaysAsAsked(was, OnEvent(h, e).descriptors[e.fd], steps, step, e.fd);
    StepElsewhere(h, OnEvent(h, e), steps, step, e.fd);
  }

  lemma SetMaskAsAsked(h: Handler, m: Message, steps: seq<Step>)
    requires Inv(h) && AllAsAsked(h, steps) && m.ToSocket? && m.fd != -1 && m.fd in h.descriptors
    requires IsCommand(m.data, SET_EVENT_MASK_COMMAND) && m.port != 0 && EventBits(m.data) <= 3
    requires var d := h.descriptors[m.fd]; if d.Single? then d.port == 0 || d.port == m.port else EventBits(m.data) <= 1
    ensures AllAsAsked(OnSetEventMask(h, m), steps + [Handle(m)])
  {
    hide Change, Asked;
    Powers();
    var was, mask := h.descriptors[m.fd], EventBits(m.data);
    var d := SetPortAndMask(was, m.port, mask);
    assert InStep(h, m.fd) && IsAsAsked(was, steps, m.fd);
    var h1 := if m.port in Ports(was) then h else h.(owed := h.owed[(m.fd, m.port) := 0]);
    SetSound(was, m.port, mask);
    SetMaskEffect(was, m.port, mask);
    ChangeWants(h, h1, m.fd, d, m.addOk);
    var d' := OnSetEventMask(h, m).descriptors[m.fd];
    forall p | p in Ports(d')
      ensures Asked(steps + [Handle(m)], m.fd, p) == Some(Wants(d', p))
    {
      AskedThen(steps, Handle(m), m.fd, p);
    }
    StepElsewhere(h, OnSetEventMask(h, m), steps, Handle(m), m.fd);
  }

  lemma ReturnAsAsked(h: Handler, m: Message, steps: seq<Step>)
    requires Inv(h) && AllAsAsked(h, steps) && m.ToSocket? && m.fd != -1 && m.fd in h.descriptors
    requires IsCommand(m.data, RETURN_TOKEN_COMMAND) && m.port in Ports(h.descriptors[m.fd])
    ensures AllAsAsked(OnReturnTokens(h, m), steps + [Handle(m)])
  {
    hide Change, Asked;
    Powers();
    var was, count, key := h.descriptors[m.fd], TokenCount(m.data), (m.fd, m.port);
    assert InStep(h, m.fd) && IsAsAsked(was, steps, m.fd);
    var h1 := h.(owed := h.owed[key := if count <= h.owed[key] then h.owed[key] - count else 0]);
    GiveBackEffect(was, m.port, count);
    GiveBackSound(was, m.port, count);
    ChangeWants(h, h1, m.fd, GiveBack(was, m.port, count), m.addOk);
    StaysAsAsked(was, OnReturnTokens(h, m).descriptors[m.fd], steps, Handle(m), m.fd);
    StepElsewhere(h, OnReturnTokens(h, m), steps, Handle(m), m.fd);
  }

  lemma CloseAsAsked(h: Handler, m: Message, steps: seq<Step>)
    requires Inv(h) && AllAsAsked(h, steps) && m.ToSocket? && m.fd != -1 && m.fd in h.descriptors
    requires IsCommand(m.data, CLOSE_COMMAND) && IsWellFormedFor(h.descriptors[m.fd], m)
    ensures AllAsAsked(OnClose(h, m), steps + [Handle(m)])
  {
    hide Change, Asked;
    Powers();
    var was := h.descriptors[m.fd];
    var d := WithoutCloser(was, m);
    assert InStep(h, m.fd) && IsAsAsked(was, steps, m.fd);
    RemoveSound(was, m.port);
    if m.port != 0 {
      RemoveEffect(was, m.port);
    }
    ChangeWants(h, h, m.fd, d, m.addOk);
    var g := Change(h, m.fd, d, m.addOk);
    forall fd | fd != m.fd
      ensures SameAt(h, OnClose(h, m), fd)
    {
      assert SameAt(h, g, fd);
    }
    if !IsDeleted(was, m) {
      StaysAsAsked(was, g.descriptors[m.fd], steps, Handle(m), m.fd);
    }
    StepElsewhere(h, OnClose(h, m), steps, Handle(m), m.fd);
  }

  lemma LookupAsAsked(h: Handler, fd: Fd, isListening: bool, steps: seq<Step>)
    requires AllAsAsked(h, steps) && fd != -1
    ensures AllAsAsked(Lookup(h, fd, isListening), steps)
  {
    forall g | g in Lookup(h, fd, isListening).descriptors
      ensures IsAsAsked(Lookup(h, fd, isListening).descriptors[g], steps, g)
    {
      assert g in h.descriptors ==> IsAsAsked(h.descriptors[g], steps, g);
    }
  }

  lemma MessageAsAsked(h: Handler, m: Message, steps: seq<Step>)
    requires Inv(h) && AllAsAsked(h, steps) && IsWellFormed(h, m)
    ensures AllAsAsked(OnMessage(h, m), steps + [Handle(m)])
  {
    hide Asked, OnClose, OnReturnTokens, OnSetEventMask, IsAsAsked, IsListeningSocket;
    Powers();
    if m.ToSocket? && m.fd != -1 {
      var h1 := Lookup(h, m.fd, IsListeningSocket(m.data));
      LookupInv(h, m.fd, IsListeningSocket(m.data));
      LookupAsAsked(h, m.fd, IsListeningSocket(m.data), steps);
      if IsCommand(m.data, CLOSE_COMMAND) {
        CloseAsAsked(h1, m, steps);
      } else if IsCommand(m.data, RETURN_TOKEN_COMMAND) {
        ReturnAsAsked(h1, m, steps);
      } else if IsCommand(m.data, SET_EVENT_MASK_COMMAND) {
        SetMaskAsAsked(h1, m, steps);
      } else {
        QuietAsAsked(h1, Handle(m), steps);
      }
    } else {
      QuietAsAsked(h, Handle(m), steps);
    }
  }

  /** A step by which no port of a live descriptor asks for anything. */
  lemma QuietAsAsked(h: Handler, step: Step, steps: seq<Step>)
    requires AllAsAsked(h, steps)
    requires forall fd, p :: fd in h.descriptors ==> !IsAsking(step, fd, p)
    ensures AllAsAsked(h, steps + [step])
  {
    forall fd | fd in h.descriptors
      ensures IsAsAsked(h.descriptors[fd], steps + [step], fd)
    {
      StaysAsAsked(h.descriptors[fd], h.descriptors[fd], steps, step, fd);
    }
  }

  lemma {:induction false} TraceAsAsked(h: Handler, done: seq<Step>, steps: seq<Step>)
    requires Inv(h) && AllAsAsked(h, done) && IsTrace(h, steps)
    ensures AllAsAsked(AfterSteps(h, steps), done + steps)
    decreases |steps|
  {
    if steps == [] {
      assert done + steps == done;
    } else {
      StepInv(h, steps[0]);
      match steps[0] {
        case Dispatch(report) =>
          if report.Ready? {
            EventAsAsked(h, report.event, done);
          } else {
            QuietAsAsked(h, steps[0], done);
          }
        case Handle(m) => MessageAsAsked(h, m, done);
      }
      assert done + [steps[0]] + steps[1..] == done + steps;
      TraceAsAsked(OnStep(h, steps[0]), done + [steps[0]], steps[1..]);
    }
  }

  /**
   After every run, each port of each live descriptor wants what its latest message asked for,
   and the kernel watches a registered descriptor for just what its ports with tokens want,
   edge-triggered unless it is shared.
   */
  lemma KernelWatchesWhatIsAsked(polls: seq<Poll>, fd: Fd, p: Port)
    requires IsRun(Start(), polls) && fd in After(Start(), polls).descriptors
    ensures var h := After(Start(), polls);
            var d := h.descriptors[fd];
            && (p in Ports(d) ==> Asked(Steps(polls), fd, p) == Some(Wants(d, p)))
            && (fd in h.epoll.registered ==>
                  h.epoll.registered[fd] == Interest(WantsInput(d), WantsOutput(d), d.Single?))
            && (fd in h.epoll.registered <==> (WantsInput(d) || WantsOutput(d)) && !AddRefused(h, fd))
  {
    var h := After(Start(), polls);
    RunInv(Start(), polls);
    assert InStep(h, fd);
    MaskIsWanted(h.descriptors[fd]);
    RunIsTrace(Start(), polls);
    TraceAsAsked(Start(), [], Steps(polls));
    assert [] + Steps(polls) == Steps(polls);
    assert IsAsAsked(h.descriptors[fd], Steps(polls), fd);
  }

  // ----- every run: when the handler ends -----

  lemma ChangeGoesOn(h: Handler, fd: Fd, d: Descriptor, addOk: bool)
    requires fd in h.descriptors
    ensures Change(h, fd, d, addOk).shutdown == h.shutdown
  {
  }

  lemma StepEnds(h: Handler, step: Step)
    requires CanStep(h, step)
    ensures OnStep(h, step).shutdown <==> h.shutdown || step == Handle(Shutdown)
  {
    hide Change;
    match step
    case Dispatch(report) =>
      if report.Ready? {
        var e := report.event;
        var d := h.descriptors[e.fd];
        ChangeGoesOn(Notify(h, e.fd, Ports(d), ERROR_EVENT), e.fd, ChargeAll(d), e.addOk);
        ChangeGoesOn(Notify(h, e.fd, {NextListener(d)}, EventMask(e)), e.fd, ChargeNext(d), e.addOk);
      }
    case Handle(m) =>
      if m.ToSocket? && m.fd != -1 {
        MessageGoesOn(h, m);
      }
  }

  lemma MessageGoesOn(h: Handler, m: Message)
    requires IsWellFormed(h, m) && m.ToSocket? && m.fd != -1
    ensures OnMessage(h, m).shutdown == h.shutdown
  {
    hide Change;
    var h1 := Lookup(h, m.fd, IsListeningSocket(m.data));
    var d := h1.descriptors[m.fd];
    if IsCommand(m.data, CLOSE_COMMAND) {
      ChangeGoesOn(h1, m.fd, WithoutCloser(d, m), m.addOk);
    } else if IsCommand(m.data, RETURN_TOKEN_COMMAND) {
      var count, key := TokenCount(m.data), (m.fd, m.port);
      var h2 := h1.(owed := h1.owed[key := if count <= h1.owed[key] then h1.owed[key] - count else 0]);
      ChangeGoesOn(h2, m.fd, GiveBack(d, m.port, count), m.addOk);
    } else if IsCommand(m.data, SET_EVENT_MASK_COMMAND) {
      var h2 := if m.port in Ports(d) then h1 else h1.(owed := h1.owed[(m.fd, m.port) := 0]);
      ChangeGoesOn(h2, m.fd, SetPortAndMask(d, m.port, EventBits(m.data)), m.addOk);
    }
  }

  lemma {:induction false} TraceEnds(h: Handler, steps: seq<Step>)
    requires IsTrace(h, steps)
    ensures AfterSteps(h, steps).shutdown <==> h.shutdown || Handle(Shutdown) in steps
    decreases |steps|
  {
    hide OnStep, CanStep;
    if steps != [] {
      StepEnds(h, steps[0]);
      TraceEnds(OnStep(h, steps[0]), steps[1..]);
      assert steps == [steps[0]] + steps[1..];
    }
  }

  /** The handler has been told to end exactly if one of the messages it has handled said so. */
  lemma EndsWhenTold(polls: seq<Poll>)
    requires IsRun(Start(), polls)
    ensures After(Start(), polls).shutdown <==> Handle(Shutdown) in Steps(polls)
  {
    RunIsTrace(Start(), polls);
    TraceEnds(Start(), Steps(polls));
  }
}
