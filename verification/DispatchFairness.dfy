/**
 Fairness of the Linux event handler over whole runs: the ports that share a descriptor are
 notified in turn, whatever else the handler does in between.
 */
module DispatchFairness {
  import opened Basics
  import opened SharedPorts
  import opened EpollProtocol

  // ----- runs step by step -----

  /** One thing the handler does: dispatch a report of the kernel, or handle a message. */
  datatype Step = Dispatch(report: Report) | Handle(message: Message)

  predicate CanStep(h: Handler, step: Step) {
    match step
    case Dispatch(report) => report.Ready? ==> report.event.fd in h.descriptors
    case Handle(message) => IsWellFormed(h, message)
  }

  function OnStep(h: Handler, step: Step): Handler
    requires CanStep(h, step)
  {
    match step
    case Dispatch(report) => OnReport(h, report)
    case Handle(message) => OnMessage(h, message)
  }

  predicate IsTrace(h: Handler, steps: seq<Step>)
    decreases |steps|
  {
    steps == [] || (CanStep(h, steps[0]) && IsTrace(OnStep(h, steps[0]), steps[1..]))
  }

  function AfterSteps(h: Handler, steps: seq<Step>): Handler
    requires IsTrace(h, steps)
    decreases |steps|
  {
    if steps == [] then h else AfterSteps(OnStep(h, steps[0]), steps[1..])
  }

  lemma {:induction false} TraceConcat(h: Handler, a: seq<Step>, b: seq<Step>)
    requires IsTrace(h, a) && IsTrace(AfterSteps(h, a), b)
    ensures IsTrace(h, a + b) && AfterSteps(h, a + b) == AfterSteps(AfterSteps(h, a), b)
    decreases |a|
  {
    if a == [] {
      assert a + b == b;
    } else {
      assert (a + b)[1..] == a[1..] + b;
      TraceConcat(OnStep(h, a[0]), a[1..], b);
    }
  }

  function Dispatches(batch: seq<Report>): seq<Step> {
    if batch == [] then [] else [Dispatch(batch[0])] + Dispatches(batch[1..])
  }

  function Handles(messages: seq<Message>): seq<Step> {
    if messages == [] then [] else [Handle(messages[0])] + Handles(messages[1..])
  }

  /** The steps of a run: at each wake-up first the whole batch, then the messages. */
  function Steps(polls: seq<Poll>): seq<Step> {
    if polls == [] then []
    else
      Dispatches(polls[0].batch) + (if Interrupt in polls[0].batch then Handles(polls[0].messages) else []) +
      Steps(polls[1..])
  }

  lemma {:induction false} BatchIsTrace(h: Handler, batch: seq<Report>)
    requires CanHandleEvents(h, batch)
    ensures IsTrace(h, Dispatches(batch)) && AfterSteps(h, Dispatches(batch)) == OnEvents(h, batch)
    decreases |batch|
  {
    if batch != [] {
      assert Dispatches(batch)[1..] == Dispatches(batch[1..]);
      BatchIsTrace(OnReport(h, batch[0]), batch[1..]);
    }
  }

  lemma {:induction false} MessagesAreTrace(h: Handler, messages: seq<Message>)
    requires CanHandleMessages(h, messages)
    ensures IsTrace(h, Handles(messages)) && AfterSteps(h, Handles(messages)) == OnMessages(h, messages)
    decreases |messages|
  {
    if messages != [] {
      assert Handles(messages)[1..] == Handles(messages[1..]);
      MessagesAreTrace(OnMessage(h, messages[0]), messages[1..]);
    }
  }

  /** A run, step by step, leads where the run leads. */
  lemma {:induction false} RunIsTrace(h: Handler, polls: seq<Poll>)
    requires IsRun(h, polls)
    ensures IsTrace(h, Steps(polls)) && AfterSteps(h, Steps(polls)) == After(h, polls)
    decreases |polls|
  {
    if polls != [] {
      var batch, g := Dispatches(polls[0].batch), OnEvents(h, polls[0].batch);
      var rest := if Interrupt in polls[0].batch then Handles(polls[0].messages) else [];
      BatchIsTrace(h, polls[0].batch);
      if Interrupt in polls[0].batch {
        MessagesAreTrace(g, polls[0].messages);
      }
      TraceConcat(h, batch, rest);
      RunIsTrace(OnPoll(h, polls[0]), polls[1..]);
      TraceConcat(h, batch + rest, Steps(polls[1..]));
    }
  }

  lemma StepInv(h: Handler, step: Step)
    requires Inv(h) && CanStep(h, step)
    ensures Inv(OnStep(h, step))
  {
    match step
    case Dispatch(report) => if report.Ready? { OnEventInv(h, report.event); }
    case Handle(message) => OnMessageInv(h, message);
  }

  // ----- whose turn it is -----

  /** The notification of a single port of `fd` that a step sends: that of its next listener. */
  function Turn(h: Handler, step: Step, fd: Fd): Option<Post>
    requires CanStep(h, step)
  {
    if step.Dispatch? && step.report.Ready? && step.report.event.fd == fd then
      var mask := EventMask(step.report.event);
      if mask != 0 && mask != ERROR_EVENT then Some(Post(fd, NextListener(h.descriptors[fd]), mask)) else None
    else
      None
  }

  /** The notifications of single ports of `fd`, in the order in which they are sent. */
  function Turns(h: Handler, steps: seq<Step>, fd: Fd): seq<Post>
    requires IsTrace(h, steps)
    decreases |steps|
  {
    if steps == [] then []
    else
      var turn := Turn(h, steps[0], fd);
      (if turn.Some? then [turn.value] else []) + Turns(OnStep(h, steps[0]), steps[1..], fd)
  }

  /** `p` shares `fd`, wants to read and has a token. */
  predicate IsWaiting(h: Handler, fd: Fd, p: Port) {
    fd in h.descriptors && h.descriptors[fd].Multiple? && p in h.descriptors[fd].shared.active
  }

  function PlaceAt(h: Handler, fd: Fd, p: Port): nat
    requires fd in h.descriptors && h.descriptors[fd].Multiple?
  {
    Place(h.descriptors[fd].shared.active, p)
  }

  predicate IsTurnOf(h: Handler, step: Step, fd: Fd, p: Port)
    requires CanStep(h, step)
  {
    Turn(h, step, fd).Some? && Turn(h, step, fd).value.port == p
  }

  /** The port waits until it has its turn, or to the end. */
  predicate KeepsWaiting(h: Handler, steps: seq<Step>, fd: Fd, p: Port)
    requires IsTrace(h, steps)
    decreases |steps|
  {
    && IsWaiting(h, fd, p)
    && (steps == [] || IsTurnOf(h, steps[0], fd, p) || KeepsWaiting(OnStep(h, steps[0]), steps[1..], fd, p))
  }

  // ----- no step moves a waiting port back -----

  lemma {:induction false} OnlyReadyPart(active: seq<Port>, ports: map<Port, PortState>, p: Port)
    requires p in OnlyReady(active, ports)
    ensures p in active
  {
    if active[0] != p {
      assert p in OnlyReady(active[1..], ports);
      OnlyReadyPart(active[1..], ports, p);
    }
  }

  /** Telling the kernel may cost every port a token, if it refuses; that moves nobody back. */
  lemma ChangePlace(h: Handler, fd: Fd, d: Descriptor, addOk: bool, p: Port)
    requires fd in h.descriptors && d.Multiple? && Agrees(d.shared)
    requires IsWaiting(Change(h, fd, d, addOk), fd, p)
    ensures p in d.shared.active && PlaceAt(Change(h, fd, d, addOk), fd, p) <= Place(d.shared.active, p)
  {
    var d' := Change(h, fd, d, addOk).descriptors[fd];
    if d' != d {
      assert d' == ChargeAll(d);
      OnlyReadyPart(d.shared.active, NotifyAll(d.shared).ports, p);
      ApplyPlace(d.shared, All, p);
    }
  }

  lemma EventPlace(h: Handler, e: Event, fd: Fd, p: Port)
    requires Inv(h) && e.fd in h.descriptors && IsWaiting(h, fd, p) && IsWaiting(OnEvent(h, e), fd, p)
    requires !IsTurnOf(h, Dispatch(Ready(e)), fd, p)
    ensures PlaceAt(OnEvent(h, e), fd, p) + (if Turn(h, Dispatch(Ready(e)), fd).Some? then 1 else 0) <=
            PlaceAt(h, fd, p)
  {
    hide Change, Place;
    if e.fd != fd {
      OnEventInv(h, e);
      assert SameAt(h, OnEvent(h, e), fd);
    } else if EventMask(e) != 0 {
      var d := h.descriptors[fd];
      assert InStep(h, fd);
      if EventMask(e) == ERROR_EVENT {
        ChargeAllSound(d);
        ChangePlace(Notify(h, fd, Ports(d), ERROR_EVENT), fd, ChargeAll(d), e.addOk, p);
        ApplyPlace(d.shared, All, p);
      } else {
        ChargeNextSound(d);
        ChangePlace(Notify(h, fd, {NextListener(d)}, EventMask(e)), fd, ChargeNext(d), e.addOk, p);
        ApplyPlace(d.shared, Next, p);
      }
    }
  }

  /** No other descriptor changes, and what is posted stays posted. */
  ghost predicate ChangesOnly(h: Handler, h': Handler, fd: Fd) {
    && h.posted <= h'.posted
    && (forall g :: g != fd && g in h.descriptors ==> g in h'.descriptors && h'.descriptors[g] == h.descriptors[g])
  }

  lemma ChangeOnly(h: Handler, h1: Handler, fd: Fd, d: Descriptor, addOk: bool)
    requires fd in h1.descriptors && ChangesOnly(h, h1, fd)
    ensures ChangesOnly(h, Change(h1, fd, d, addOk), fd)
  {
  }

  lemma CloseChangesOnly(h: Handler, h1: Handler, m: Message)
    requires m.ToSocket? && m.fd in h1.descriptors && ChangesOnly(h, h1, m.fd)
    ensures ChangesOnly(h, OnClose(h1, m), m.fd)
  {
    hide Change;
    ChangeOnly(h, h1, m.fd, WithoutCloser(h1.descriptors[m.fd], m), m.addOk);
  }

  lemma ReturnChangesOnly(h: Handler, h1: Handler, m: Message)
    requires m.ToSocket? && m.fd in h1.descriptors && m.port in Ports(h1.descriptors[m.fd])
    requires ChangesOnly(h, h1, m.fd)
    ensures ChangesOnly(h, OnReturnTokens(h1, m), m.fd)
  {
    hide Change;
    var count, key := TokenCount(m.data), (m.fd, m.port);
    var h2 := h1.(owed := h1.owed[key := if count <= h1.owed[key] then h1.owed[key] - count else 0]);
    ChangeOnly(h, h2, m.fd, GiveBack(h1.descriptors[m.fd], m.port, count), m.addOk);
  }

  lemma SetMaskChangesOnly(h: Handler, h1: Handler, m: Message)
    requires m.ToSocket? && m.fd in h1.descriptors && ChangesOnly(h, h1, m.fd)
    ensures ChangesOnly(h, OnSetEventMask(h1, m), m.fd)
  {
    hide Change;
    var d := h1.descriptors[m.fd];
    var h2 := if m.port in Ports(d) then h1 else h1.(owed := h1.owed[(m.fd, m.port) := 0]);
    ChangeOnly(h, h2, m.fd, SetPortAndMask(d, m.port, EventBits(m.data)), m.addOk);
  }

  lemma MessageChangesOnly(h: Handler, m: Message)
    requires IsWellFormed(h, m) && m.ToSocket?
    ensures ChangesOnly(h, OnMessage(h, m), m.fd)
  {
    hide OnClose, OnReturnTokens, OnSetEventMask;
    if m.fd != -1 {
      var h1 := Lookup(h, m.fd, IsListeningSocket(m.data));
      if IsCommand(m.data, CLOSE_COMMAND) {
        CloseChangesOnly(h, h1, m);
      } else if IsCommand(m.data, RETURN_TOKEN_COMMAND) {
        ReturnChangesOnly(h, h1, m);
      } else if IsCommand(m.data, SET_EVENT_MASK_COMMAND) {
        SetMaskChangesOnly(h, h1, m);
      }
    }
  }

  lemma ClosePlace(h: Handler, m: Message, p: Port)
    requires m.ToSocket? && m.fd in h.descriptors && InStep(h, m.fd)
    requires IsWaiting(h, m.fd, p) && IsWaiting(OnClose(h, m), m.fd, p)
    ensures PlaceAt(OnClose(h, m), m.fd, p) <= PlaceAt(h, m.fd, p)
  {
    hide Change;
    var d := h.descriptors[m.fd];
    RemoveSound(d, m.port);
    ChangePlace(h, m.fd, WithoutCloser(d, m), m.addOk, p);
    if m.port != ILLEGAL_PORT {
      ApplyPlace(d.shared, Remove(m.port), p);
    }
  }

  lemma GiveBackPlace(h: Handler, m: Message, p: Port)
    requires m.ToSocket? && m.fd in h.descriptors && m.port in Ports(h.descriptors[m.fd]) && InStep(h, m.fd)
    requires IsWaiting(h, m.fd, p) && IsWaiting(OnReturnTokens(h, m), m.fd, p)
    ensures PlaceAt(OnReturnTokens(h, m), m.fd, p) <= PlaceAt(h, m.fd, p)
  {
    var d, count, key := h.descriptors[m.fd], TokenCount(m.data), (m.fd, m.port);
    var h1 := h.(owed := h.owed[key := if count <= h.owed[key] then h.owed[key] - count else 0]);
    GiveBackSound(d, m.port, count);
    ChangePlace(h1, m.fd, GiveBack(d, m.port, count), m.addOk, p);
    ApplyPlace(d.shared, Return(m.port, count), p);
  }

  lemma SetMaskPlace(h: Handler, m: Message, p: Port)
    requires m.ToSocket? && m.fd in h.descriptors && m.port != ILLEGAL_PORT && InStep(h, m.fd)
    requires EventBits(m.data) <= IN_EVENT
    requires IsWaiting(h, m.fd, p) && IsWaiting(OnSetEventMask(h, m), m.fd, p)
    ensures PlaceAt(OnSetEventMask(h, m), m.fd, p) <= PlaceAt(h, m.fd, p)
  {
    var d, mask := h.descriptors[m.fd], EventBits(m.data);
    var h1 := if m.port in Ports(d) then h else h.(owed := h.owed[(m.fd, m.port) := 0]);
    SetSound(d, m.port, mask);
    ChangePlace(h1, m.fd, SetPortAndMask(d, m.port, mask), m.addOk, p);
    ApplyPlace(d.shared, SetMask(m.port, mask == IN_EVENT), p);
  }

  /** A message holds at most one command. */
  lemma OneCommand(data: nat)
    ensures var isShutdown := IsCommand(data, SHUTDOWN_READ_COMMAND) || IsCommand(data, SHUTDOWN_WRITE_COMMAND);
            && (IsCommand(data, CLOSE_COMMAND) ==> !isShutdown)
            && (IsCommand(data, RETURN_TOKEN_COMMAND) ==> !isShutdown && !IsCommand(data, CLOSE_COMMAND))
            && (IsCommand(data, SET_EVENT_MASK_COMMAND) ==>
                  !isShutdown && !IsCommand(data, CLOSE_COMMAND) && !IsCommand(data, RETURN_TOKEN_COMMAND))
  {
    assert Pow2(1) == 2 && Pow2(2) == 4 && Pow2(3) == 8 && Pow2(4) == 16;
  }

  lemma MessagePlace(h: Handler, m: Message, fd: Fd, p: Port)
    requires Inv(h) && IsWellFormed(h, m) && IsWaiting(h, fd, p) && IsWaiting(OnMessage(h, m), fd, p)
    ensures PlaceAt(OnMessage(h, m), fd, p) <= PlaceAt(h, fd, p)
  {
    hide OnClose, OnReturnTokens, OnSetEventMask, Place, IsCommand, IsListeningSocket;
    if m.ToSocket? && m.fd != fd {
      MessageChangesOnly(h, m);
    } else if m.ToSocket? && fd != -1 {
      assert InStep(h, fd);
      OneCommand(m.data);
      if IsCommand(m.data, CLOSE_COMMAND) {
        ClosePlace(h, m, p);
      } else if IsCommand(m.data, RETURN_TOKEN_COMMAND) {
        GiveBackPlace(h, m, p);
      } else if IsCommand(m.data, SET_EVENT_MASK_COMMAND) {
        SetMaskPlace(h, m, p);
      }
    }
  }

  /** A waiting port never moves back, and every turn of another port brings it one place forward. */
  lemma StepPlace(h: Handler, step: Step, fd: Fd, p: Port)
    requires Inv(h) && CanStep(h, step) && IsWaiting(h, fd, p) && IsWaiting(OnStep(h, step), fd, p)
    requires !IsTurnOf(h, step, fd, p)
    ensures PlaceAt(OnStep(h, step), fd, p) + (if Turn(h, step, fd).Some? then 1 else 0) <= PlaceAt(h, fd, p)
  {
    match step
    case Dispatch(report) => if report.Ready? { EventPlace(h, report.event, fd, p); }
    case Handle(message) => MessagePlace(h, message, fd, p);
  }

  // ----- every run -----

  /** A port at place `i` has one of the next `i + 1` turns. */
  lemma {:induction false} ServedInTurn(h: Handler, steps: seq<Step>, fd: Fd, p: Port) returns (k: nat)
    requires Inv(h) && IsTrace(h, steps) && KeepsWaiting(h, steps, fd, p)
    requires |Turns(h, steps, fd)| > PlaceAt(h, fd, p)
    ensures k <= PlaceAt(h, fd, p) && Turns(h, steps, fd)[k].port == p
    decreases |steps|
  {
    if IsTurnOf(h, steps[0], fd, p) {
      k := 0;
    } else {
      var h' := OnStep(h, steps[0]);
      assert IsWaiting(h', fd, p);
      StepInv(h, steps[0]);
      StepPlace(h, steps[0], fd, p);
      k := ServedInTurn(h', steps[1..], fd, p);
      k := if Turn(h, steps[0], fd).Some? then k + 1 else k;
    }
  }

  lemma NotifyPosts(h: Handler, fd: Fd, ports: set<Port>, events: nat, p: Port)
    ensures Notify(h, fd, ports, events).descriptors == h.descriptors
    ensures h.posted <= Notify(h, fd, ports, events).posted
    ensures p in ports ==> h.posted + multiset{Post(fd, p, events)} <= Notify(h, fd, ports, events).posted
  {
    var posts := set q | q in ports :: Post(fd, q, events);
    assert p in ports ==> multiset{Post(fd, p, events)} <= multiset(posts);
  }

  lemma EventPosts(h: Handler, e: Event)
    requires e.fd in h.descriptors
    ensures h.posted <= OnEvent(h, e).posted
    ensures var turn := Turn(h, Dispatch(Ready(e)), e.fd);
            turn.Some? ==> h.posted + multiset{turn.value} <= OnEvent(h, e).posted
  {
    hide Change, Notify;
    var d := h.descriptors[e.fd];
    var port := NextListener(d);
    if EventMask(e) == ERROR_EVENT {
      var h1 := Notify(h, e.fd, Ports(d), ERROR_EVENT);
      NotifyPosts(h, e.fd, Ports(d), ERROR_EVENT, port);
      ChangeOnly(h1, h1, e.fd, ChargeAll(d), e.addOk);
    } else if EventMask(e) != 0 {
      var h1 := Notify(h, e.fd, {port}, EventMask(e));
      NotifyPosts(h, e.fd, {port}, EventMask(e), port);
      ChangeOnly(h1, h1, e.fd, ChargeNext(d), e.addOk);
    }
  }

  /** What is posted stays posted, and every turn is. */
  lemma StepPosts(h: Handler, step: Step, fd: Fd)
    requires CanStep(h, step)
    ensures h.posted <= OnStep(h, step).posted
    ensures var turn := Turn(h, step, fd);
            turn.Some? ==> h.posted + multiset{turn.value} <= OnStep(h, step).posted
  {
    hide OnClose, OnReturnTokens, OnSetEventMask, OnEvent;
    match step
    case Dispatch(report) => if report.Ready? { EventPosts(h, report.event); }
    case Handle(message) =>
      if message.ToSocket? {
        MessageChangesOnly(h, message);
      }
  }

  lemma {:induction false} TurnsArePosted(h: Handler, steps: seq<Step>, fd: Fd)
    requires IsTrace(h, steps)
    ensures h.posted + multiset(Turns(h, steps, fd)) <= AfterSteps(h, steps).posted
    decreases |steps|
  {
    if steps != [] {
      StepPosts(h, steps[0], fd);
      TurnsArePosted(OnStep(h, steps[0]), steps[1..], fd);
      if Turn(h, steps[0], fd).Some? {
        assert Turns(h, steps, fd)[1..] == Turns(OnStep(h, steps[0]), steps[1..], fd);
        assert Turns(h, steps, fd) == [Turns(h, steps, fd)[0]] + Turns(h, steps, fd)[1..];
      }
    }
  }

  ghost function TurnsIn(h: Handler, polls: seq<Poll>, fd: Fd): seq<Post>
    requires IsRun(h, polls)
  {
    RunIsTrace(h, polls);
    Turns(h, Steps(polls), fd)
  }

  ghost predicate WaitsThrough(h: Handler, polls: seq<Poll>, fd: Fd, p: Port)
    requires IsRun(h, polls)
  {
    RunIsTrace(h, polls);
    KeepsWaiting(h, Steps(polls), fd, p)
  }

  /**
   Bounded bypass in every run of the handler: from any state it can reach, a port at place `i`
   of a shared descriptor that goes on waiting is sent one of the next `i + 1` notifications
   dispatched for that descriptor, and all of those are posted.
   */
  lemma EveryRunIsFair(before: seq<Poll>, polls: seq<Poll>, fd: Fd, p: Port) returns (k: nat)
    requires IsRun(Start(), before) && IsRun(After(Start(), before), polls)
    requires WaitsThrough(After(Start(), before), polls, fd, p)
    requires |TurnsIn(After(Start(), before), polls, fd)| > PlaceAt(After(Start(), before), fd, p)
    ensures var h := After(Start(), before);
            && k <= PlaceAt(h, fd, p) && TurnsIn(h, polls, fd)[k].port == p
            && h.posted + multiset(TurnsIn(h, polls, fd)) <= After(h, polls).posted
  {
    var h := After(Start(), before);
    RunInv(Start(), before);
    RunIsTrace(h, polls);
    k := ServedInTurn(h, Steps(polls), fd, p);
    TurnsArePosted(h, Steps(polls), fd);
  }
}
