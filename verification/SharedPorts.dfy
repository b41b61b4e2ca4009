/**
 A listening socket shared by many Dart ports, on values: each port has a token budget and a
 read/paused flag, and `active` caches the ready ports in the order they take turns.
 */
module SharedPorts {
  import opened Basics
  import opened CircularLinkedList

  type Port = int

  const ILLEGAL_PORT: Port := 0

  /** Tokens a port on a shared descriptor starts with. */
  const SHARED_TOKENS := 4

  datatype PortState = PortState(reading: bool, tokens: int) {
    predicate IsReady() {
      tokens > 0 && reading
    }
  }

  datatype Shared = Shared(ports: map<Port, PortState>, active: seq<Port>, disableTokens: bool)

  predicate IsReady(s: Shared, p: Port) {
    p in s.ports && s.ports[p].IsReady()
  }

  /** The cache agrees with the map: every ready port once, and nothing else. */
  ghost predicate Agrees(s: Shared) {
    && NoDuplicates(s.active)
    && forall p :: p in s.active <==> IsReady(s, p)
  }

  // ----- operations -----

  function New(disableTokens: bool): Shared {
    Shared(map[], [], disableTokens)
  }

  /** Inserts a port with a full budget, or changes its flag; the cache follows its readiness. */
  function SetReading(s: Shared, p: Port, reading: bool): Shared {
    if p !in s.ports then
      Shared(s.ports[p := PortState(reading, SHARED_TOKENS)], if reading then s.active + [p] else s.active,
             s.disableTokens)
    else
      var now := s.ports[p].(reading := reading);
      Shared(s.ports[p := now],
             if s.ports[p].IsReady() && !now.IsReady() then RemoveFirst(s.active, p)
             else if !s.ports[p].IsReady() && now.IsReady() then s.active + [p]
             else s.active,
             s.disableTokens)
  }

  function RemovePort(s: Shared, p: Port): Shared {
    if p !in s.ports then s
    else Shared(s.ports - {p}, if s.ports[p].IsReady() then RemoveFirst(s.active, p) else s.active, s.disableTokens)
  }

  function RemoveAllPorts(s: Shared): Shared {
    Shared(map[], [], s.disableTokens)
  }

  function Charged(s: Shared, p: Port): PortState
    requires p in s.ports
  {
    if s.disableTokens then s.ports[p] else s.ports[p].(tokens := s.ports[p].tokens - 1)
  }

  /** Whose turn it is; 0 when no port is ready. */
  function NextPort(s: Shared): Port {
    if s.active == [] then ILLEGAL_PORT else s.active[0]
  }

  /** The port whose turn it is pays a token; it goes to the back, or leaves the cache when its budget is spent. */
  function NotifyNext(s: Shared): Shared {
    if s.active == [] || s.active[0] !in s.ports then s
    else
      var p := s.active[0];
      Shared(s.ports[p := Charged(s, p)], if Charged(s, p).tokens <= 0 then s.active[1..] else Rotated(s.active),
             s.disableTokens)
  }

  /** Every port pays a token; those that stop being ready leave the cache. */
  function NotifyAll(s: Shared): Shared {
    var ports := map p | p in s.ports :: Charged(s, p);
    Shared(ports, OnlyReady(s.active, ports), s.disableTokens)
  }

  function OnlyReady(active: seq<Port>, ports: map<Port, PortState>): seq<Port> {
    if active == [] then []
    else
      (if active[0] in ports && ports[active[0]].IsReady() then [active[0]] else []) + OnlyReady(active[1..], ports)
  }

  function ReturnTokens(s: Shared, p: Port, count: nat): Shared
    requires p in s.ports
  {
    var now := if s.disableTokens then s.ports[p] else s.ports[p].(tokens := s.ports[p].tokens + count);
    Shared(s.ports[p := now], if !s.ports[p].IsReady() && now.IsReady() then s.active + [p] else s.active,
           s.disableTokens)
  }

  // ----- facts about the cache -----

  lemma NoDuplicatesTail<X>(s: seq<X>)
    requires NoDuplicates(s) && s != []
    ensures NoDuplicates(s[1..]) && s[0] !in s[1..]
    ensures forall x :: x in s <==> x == s[0] || x in s[1..]
  {
    assert s == [s[0]] + s[1..];
    assert forall i :: 0 <= i < |s| - 1 ==> s[1..][i] == s[i + 1];
  }

  lemma {:induction false} RemoveFirstOnce<X>(s: seq<X>, x: X)
    requires NoDuplicates(s) && x in s
    ensures NoDuplicates(RemoveFirst(s, x))
    ensures forall y :: y in RemoveFirst(s, x) <==> y in s && y != x
  {
    NoDuplicatesTail(s);
    if s[0] != x {
      RemoveFirstOnce(s[1..], x);
    }
  }

  lemma {:induction false} OnlyReadyKeeps(active: seq<Port>, ports: map<Port, PortState>)
    requires NoDuplicates(active)
    ensures NoDuplicates(OnlyReady(active, ports))
    ensures forall p :: p in OnlyReady(active, ports) <==> p in active && p in ports && ports[p].IsReady()
  {
    if active != [] {
      NoDuplicatesTail(active);
      OnlyReadyKeeps(active[1..], ports);
    }
  }

  lemma RotatedSame<X>(s: seq<X>)
    ensures NoDuplicates(s) ==> NoDuplicates(Rotated(s))
    ensures forall x :: x in Rotated(s) <==> x in s
  {
    if s != [] {
      assert s == [s[0]] + s[1..];
      assert Rotated(s)[|s| - 1] == s[0];
      assert forall i :: 0 <= i < |s| - 1 ==> Rotated(s)[i] == s[i + 1];
    }
  }

  // ----- the broadcast, port by port -----

  /** A broadcast that has reached only the ports in `done`. */
  function ChargeSome(s: Shared, done: set<Port>): Shared {
    var ports := map p | p in s.ports :: if p in done then Charged(s, p) else s.ports[p];
    Shared(ports, OnlyReady(s.active, ports), s.disableTokens)
  }

  lemma {:induction false} OnlyReadyAll(active: seq<Port>, ports: map<Port, PortState>)
    requires forall p :: p in active ==> p in ports && ports[p].IsReady()
    ensures OnlyReady(active, ports) == active
  {
    if active != [] {
      var p := active[0];
      assert p in active;
      assert p in ports && ports[p].IsReady();
      OnlyReadyAll(active[1..], ports);
      assert OnlyReady(active, ports) == [p] + active[1..];
    }
  }

  lemma {:induction false} OnlyReadyStep(active: seq<Port>, ports: map<Port, PortState>, p: Port, now: PortState)
    requires NoDuplicates(active) && p in ports
    requires now.IsReady() ==> ports[p].IsReady()
    ensures OnlyReady(active, ports[p := now]) ==
            if ports[p].IsReady() && !now.IsReady() then RemoveFirst(OnlyReady(active, ports), p)
            else OnlyReady(active, ports)
  {
    if active != [] {
      NoDuplicatesTail(active);
      OnlyReadyStep(active[1..], ports, p, now);
      var rest := OnlyReady(active[1..], ports);
      OnlyReadyKeeps(active[1..], ports);
      assert ([active[0]] + rest)[1..] == rest && [] + rest == rest;
      if active[0] == p {
        RemoveFirstAbsent(rest, p);
      }
    }
  }

  lemma ChargeSomeStart(s: Shared)
    requires Agrees(s)
    ensures ChargeSome(s, {}) == s
  {
    assert ChargeSome(s, {}).ports == s.ports;
    OnlyReadyAll(s.active, s.ports);
  }

  /** Reaching one more port charges it, and drops it from the cache if its budget is spent. */
  lemma ChargeSomeStep(s: Shared, done: set<Port>, p: Port)
    requires Agrees(s) && p in s.ports && p !in done
    ensures var a, b := ChargeSome(s, done), ChargeSome(s, done + {p});
            && a.ports[p] == s.ports[p]
            && b.ports == a.ports[p := Charged(s, p)]
            && b.active ==
               (if s.ports[p].IsReady() && !Charged(s, p).IsReady() then RemoveFirst(a.active, p) else a.active)
            && Agrees(b)
  {
    var a, b := ChargeSome(s, done), ChargeSome(s, done + {p});
    assert b.ports == a.ports[p := Charged(s, p)];
    OnlyReadyStep(s.active, a.ports, p, Charged(s, p));
    OnlyReadyKeeps(s.active, b.ports);
  }

  lemma ChargeSomeEnd(s: Shared, done: set<Port>)
    requires done == s.ports.Keys
    ensures ChargeSome(s, done) == NotifyAll(s)
  {
    assert ChargeSome(s, done).ports == NotifyAll(s).ports;
  }

  // ----- runs -----

  datatype Op =
    | SetMask(port: Port, reading: bool)
    | Remove(port: Port)
    | RemoveAll
    | Next
    | All
    | Return(port: Port, count: nat)

  predicate IsLegal(s: Shared, op: Op) {
    op.Return? ==> op.port in s.ports
  }

  function Apply(s: Shared, op: Op): Shared
    requires IsLegal(s, op)
  {
    match op
    case SetMask(p, reading) => SetReading(s, p, reading)
    case Remove(p) => RemovePort(s, p)
    case RemoveAll => RemoveAllPorts(s)
    case Next => NotifyNext(s)
    case All => NotifyAll(s)
    case Return(p, count) => ReturnTokens(s, p, count)
  }

  predicate IsLegalRun(s: Shared, ops: seq<Op>)
    decreases |ops|
  {
    ops == [] || (IsLegal(s, ops[0]) && IsLegalRun(Apply(s, ops[0]), ops[1..]))
  }

  function Run(s: Shared, ops: seq<Op>): Shared
    requires IsLegalRun(s, ops)
    decreases |ops|
  {
    if ops == [] then s else Run(Apply(s, ops[0]), ops[1..])
  }

  lemma SetReadingAgrees(s: Shared, p: Port, reading: bool)
    requires Agrees(s)
    ensures Agrees(SetReading(s, p, reading))
  {
    var s' := SetReading(s, p, reading);
    if p in s.active { RemoveFirstOnce(s.active, p); }
    assert forall q :: q != p ==> (IsReady(s', q) <==> IsReady(s, q));
  }

  lemma RemovePortAgrees(s: Shared, p: Port)
    requires Agrees(s)
    ensures Agrees(RemovePort(s, p))
  {
    var s' := RemovePort(s, p);
    if p in s.active { RemoveFirstOnce(s.active, p); }
    assert forall q :: q != p ==> (IsReady(s', q) <==> IsReady(s, q));
  }

  lemma NotifyNextAgrees(s: Shared)
    requires Agrees(s)
    ensures Agrees(NotifyNext(s))
  {
    var s' := NotifyNext(s);
    if s.active != [] {
      var p := s.active[0];
      assert p in s.active;
      NoDuplicatesTail(s.active);
      RotatedSame(s.active);
      assert forall q :: q != p ==> (IsReady(s', q) <==> IsReady(s, q));
    }
  }

  lemma NotifyAllAgrees(s: Shared)
    requires Agrees(s)
    ensures Agrees(NotifyAll(s))
  {
    OnlyReadyKeeps(s.active, NotifyAll(s).ports);
  }

  lemma ReturnTokensAgrees(s: Shared, p: Port, count: nat)
    requires Agrees(s) && p in s.ports
    ensures Agrees(ReturnTokens(s, p, count))
  {
    var s' := ReturnTokens(s, p, count);
    assert forall q :: q != p ==> (IsReady(s', q) <==> IsReady(s, q));
    assert p in s.active <==> IsReady(s, p);
  }

  lemma ApplyAgrees(s: Shared, op: Op)
    requires Agrees(s) && IsLegal(s, op)
    ensures Agrees(Apply(s, op))
  {
    match op
    case SetMask(p, reading) => SetReadingAgrees(s, p, reading);
    case Remove(p) => RemovePortAgrees(s, p);
    case RemoveAll =>
    case Next => NotifyNextAgrees(s);
    case All => NotifyAllAgrees(s);
    case Return(p, count) => ReturnTokensAgrees(s, p, count);
  }

  /** After any run, the cache holds each ready port exactly once and nothing else. */
  lemma {:induction false} RunAgrees(s: Shared, ops: seq<Op>)
    requires Agrees(s) && IsLegalRun(s, ops)
    ensures Agrees(Run(s, ops))
    decreases |ops|
  {
    if ops != [] {
      ApplyAgrees(s, ops[0]);
      RunAgrees(Apply(s, ops[0]), ops[1..]);
    }
  }

  /** The interest of a shared descriptor: reading exactly when some port is ready. */
  lemma ActiveIffSomeReady(s: Shared)
    requires Agrees(s)
    ensures s.active != [] <==> exists p :: IsReady(s, p)
  {
    if s.active != [] {
      assert s.active[0] in s.active;
      assert IsReady(s, s.active[0]);
    }
  }

  /** The count that the debug build takes after every set-mask: as many cached as ready ports. */
  lemma ActiveCountsReady(s: Shared)
    requires Agrees(s)
    ensures |s.active| == |set p | p in s.ports && s.ports[p].IsReady()|
  {
    var ready := set p | p in s.ports && s.ports[p].IsReady();
    assert forall p :: p in s.active <==> p in ready;
    CountDistinct(s.active, ready);
  }

  lemma {:induction false} CountDistinct<X>(s: seq<X>, elements: set<X>)
    requires NoDuplicates(s)
    requires forall x :: x in s <==> x in elements
    ensures |s| == |elements|
  {
    if s == [] {
      assert elements == {};
    } else {
      NoDuplicatesTail(s);
      CountDistinct(s[1..], elements - {s[0]});
    }
  }

  // ----- bounded bypass -----

  /** The place of `p` in the order of turns. */
  function Place(active: seq<Port>, p: Port): (i: nat)
    ensures i <= |active|
    ensures i < |active| <==> p in active
    ensures i < |active| ==> active[i] == p
  {
    if active == [] then 0 else if active[0] == p then 0 else 1 + Place(active[1..], p)
  }

  lemma {:induction false} PlaceAppend(a: seq<Port>, b: seq<Port>, p: Port)
    requires p in a
    ensures Place(a + b, p) == Place(a, p)
  {
    if a[0] != p {
      assert (a + b)[1..] == a[1..] + b;
      PlaceAppend(a[1..], b, p);
    } else {
      assert (a + b)[0] == p;
    }
  }

  lemma {:induction false} PlaceRemoveFirst(a: seq<Port>, q: Port, p: Port)
    requires p in a && p != q
    ensures p in RemoveFirst(a, q)
    ensures Place(RemoveFirst(a, q), p) <= Place(a, p)
  {
    if a[0] != q && a[0] != p {
      PlaceRemoveFirst(a[1..], q, p);
      assert RemoveFirst(a, q)[1..] == RemoveFirst(a[1..], q);
    }
  }

  lemma {:induction false} PlaceOnlyReady(a: seq<Port>, ports: map<Port, PortState>, p: Port)
    requires p in a && p in ports && ports[p].IsReady()
    ensures p in OnlyReady(a, ports)
    ensures Place(OnlyReady(a, ports), p) <= Place(a, p)
  {
    if a[0] != p {
      PlaceOnlyReady(a[1..], ports, p);
      var rest := OnlyReady(a[1..], ports);
      if a[0] in ports && ports[a[0]].IsReady() {
        assert OnlyReady(a, ports)[1..] == rest;
      } else {
        assert OnlyReady(a, ports) == rest;
      }
    } else {
      assert OnlyReady(a, ports)[0] == p;
    }
  }

  /**
   One operation that leaves `p` ready never moves it back, except that the port whose turn
   it was goes last; every turn given to another port moves `p` one place forward.
   */
  lemma ApplyPlace(s: Shared, op: Op, p: Port)
    requires Agrees(s) && IsLegal(s, op)
    requires p in s.active && p in Apply(s, op).active
    ensures !op.Next? ==> Place(Apply(s, op).active, p) <= Place(s.active, p)
    ensures op.Next? && NextPort(s) != p ==> Place(Apply(s, op).active, p) + 1 == Place(s.active, p)
  {
    match op
    case SetMask(q, reading) =>
      PlaceAppend(s.active, [q], p);
      if q != p {
        PlaceRemoveFirst(s.active, q, p);
      } else {
        assert IsReady(s, p);
        RemoveFirstOnce(s.active, p);
      }
    case Remove(q) =>
      if q != p {
        PlaceRemoveFirst(s.active, q, p);
      } else {
        RemoveFirstOnce(s.active, p);
      }
    case RemoveAll =>
    case Next =>
      assert s.active[0] in s.active;
      if s.active[0] != p {
        PlaceAppend(s.active[1..], [s.active[0]], p);
      }
    case All =>
      NotifyAllAgrees(s);
      PlaceOnlyReady(s.active, NotifyAll(s).ports, p);
    case Return(q, count) =>
      PlaceAppend(s.active, [q], p);
  }

  function Turns(ops: seq<Op>): nat {
    if ops == [] then 0 else (if ops[0].Next? then 1 else 0) + Turns(ops[1..])
  }

  /** The port is ready until it is given a turn, or to the end of the run. */
  ghost predicate StaysReady(s: Shared, ops: seq<Op>, p: Port)
    requires IsLegalRun(s, ops)
    decreases |ops|
  {
    && p in s.active
    && (ops == [] || (ops[0].Next? && NextPort(s) == p) || StaysReady(Apply(s, ops[0]), ops[1..], p))
  }

  /** The ports that the turns of a run go to, in order. */
  function TurnsTo(s: Shared, ops: seq<Op>): (r: seq<Port>)
    requires IsLegalRun(s, ops)
    ensures |r| == Turns(ops)
    decreases |ops|
  {
    if ops == [] then []
    else (if ops[0].Next? then [NextPort(s)] else []) + TurnsTo(Apply(s, ops[0]), ops[1..])
  }

  /**
   Bounded bypass: a port at place `i` that stays ready is given one of the next `i + 1`
   turns, whatever happens to the other ports in between.
   */
  lemma {:induction false} BoundedBypass(s: Shared, ops: seq<Op>, p: Port) returns (k: nat)
    requires Agrees(s) && IsLegalRun(s, ops) && StaysReady(s, ops, p)
    requires Turns(ops) >= Place(s.active, p) + 1
    ensures k <= Place(s.active, p) && TurnsTo(s, ops)[k] == p
    decreases |ops|
  {
    var s' := Apply(s, ops[0]);
    ApplyAgrees(s, ops[0]);
    if ops[0].Next? && NextPort(s) == p {
      k := 0;
    } else {
      assert p in s'.active;
      ApplyPlace(s, ops[0], p);
      k := BoundedBypass(s', ops[1..], p);
      k := if ops[0].Next? then k + 1 else k;
    }
  }

  // ----- token conservation -----

  /** Notifications charged to each port and not yet returned, over one run. */
  type Ledger = multiset<Port>

  function Owe(s: Shared, owed: Ledger, op: Op): Ledger
    requires IsLegal(s, op)
  {
    match op
    case SetMask(p, _) => if p in s.ports then owed else owed[p := 0]
    case Remove(p) => owed[p := 0]
    case RemoveAll => multiset{}
    case Next => if s.active == [] then owed else owed[s.active[0] := owed[s.active[0]] + 1]
    case All => owed + multiset(s.ports.Keys)
    case Return(p, count) => owed[p := if count <= owed[p] then owed[p] - count else 0]
  }

  /** A client returns no more than it was charged. */
  predicate IsHonest(owed: Ledger, op: Op) {
    op.Return? ==> op.count <= owed[op.port]
  }

  predicate IsHonestRun(s: Shared, owed: Ledger, ops: seq<Op>)
    requires IsLegalRun(s, ops)
    decreases |ops|
  {
    ops == [] || (IsHonest(owed, ops[0]) && IsHonestRun(Apply(s, ops[0]), Owe(s, owed, ops[0]), ops[1..]))
  }

  function LedgerAfter(s: Shared, owed: Ledger, ops: seq<Op>): Ledger
    requires IsLegalRun(s, ops)
    decreases |ops|
  {
    if ops == [] then owed else LedgerAfter(Apply(s, ops[0]), Owe(s, owed, ops[0]), ops[1..])
  }

  /** Tokens held and tokens owed add up to the budget of every port. */
  ghost predicate Balances(s: Shared, owed: Ledger) {
    && !s.disableTokens
    && forall p :: p in s.ports ==> s.ports[p].tokens + owed[p] == SHARED_TOKENS
  }

  lemma ApplyBalances(s: Shared, owed: Ledger, op: Op)
    requires Agrees(s) && Balances(s, owed) && IsLegal(s, op) && IsHonest(owed, op)
    ensures Balances(Apply(s, op), Owe(s, owed, op))
  {
    if op.Next? && s.active != [] {
      assert s.active[0] in s.active;
    }
  }

  /**
   Token conservation: with clients that return only what they were charged, tokens held
   plus tokens owed is the initial budget of every registered port at the end of every run,
   so the budget is never exceeded.
   */
  lemma {:induction false} RunBalances(s: Shared, owed: Ledger, ops: seq<Op>)
    requires Agrees(s) && Balances(s, owed)
    requires IsLegalRun(s, ops) && IsHonestRun(s, owed, ops)
    ensures Balances(Run(s, ops), LedgerAfter(s, owed, ops))
    ensures forall p :: p in Run(s, ops).ports ==> Run(s, ops).ports[p].tokens <= SHARED_TOKENS
    decreases |ops|
  {
    if ops == [] {
      assert forall p :: p in s.ports ==> owed[p] >= 0;
    } else {
      ApplyBalances(s, owed, ops[0]);
      ApplyAgrees(s, ops[0]);
      RunBalances(Apply(s, ops[0]), Owe(s, owed, ops[0]), ops[1..]);
    }
  }

  /** A turn goes to a port only while that port holds a token. */
  lemma TurnHasToken(s: Shared)
    requires Agrees(s) && s.active != []
    ensures NextPort(s) in s.ports && s.ports[NextPort(s)].tokens > 0
  {
    assert s.active[0] in s.active;
  }
}
