/**
 The accepts of a listening socket on Windows, as a state machine. Every accept that is issued
 brings its own client socket; a completion puts the client into a queue, from which it is
 handed out in order. The sets and sequences record where each client is.
 */
module AcceptQueue {
  import opened Basics

  type Client = int

  /** The number of accepts to keep going. */
  const POOL := 5

  datatype State = State(
    isClosing: bool,
    outstanding: multiset<Client>,  // accepts issued and not completed
    queue: seq<Client>,
    handedOut: seq<Client>,
    closed: multiset<Client>,
    issued: multiset<Client>,       // every client so far
    completed: seq<Client>,         // clients that were put into the queue, in order
    failures: nat)                  // accepts that failed, at either end, while the socket was open

  const INITIAL := State(false, multiset{}, [], [], multiset{}, multiset{}, [], 0)

  /** Issues an accept for the new client `c`; `ok` is the operating system's answer. */
  function Issue(s: State, c: Client, ok: bool): State {
    if ok then s.(outstanding := s.outstanding + multiset{c}, issued := s.issued + multiset{c})
    else s.(closed := s.closed + multiset{c}, issued := s.issued + multiset{c}, failures := s.failures + 1)
  }

  /** The accept for `c` completes; `ok` tells whether the client could be set up. */
  function Complete(s: State, c: Client, ok: bool): State {
    var t := s.(outstanding := s.outstanding - multiset{c});
    if s.isClosing then t.(closed := s.closed + multiset{c})
    else if ok then t.(queue := s.queue + [c], completed := s.completed + [c])
    else t.(closed := s.closed + multiset{c}, failures := s.failures + 1)
  }

  function TakeFirst(s: State): State {
    if s.queue == [] then s else s.(queue := s.queue[1..], handedOut := s.handedOut + [s.queue[0]])
  }

  function First(s: State): Option<Client> {
    if s.queue == [] then None else Some(s.queue[0])
  }

  /** Hands out the first client, if there is one, and issues another accept if there are too few. */
  function Accept(s: State, c: Client, ok: bool): State {
    if |s.outstanding| < POOL && !s.isClosing then Issue(TakeFirst(s), c, ok) else TakeFirst(s)
  }

  /** Closing closes every client in the queue. */
  function Close(s: State): State {
    if s.isClosing then s
    else s.(isClosing := true, queue := [], closed := s.closed + multiset(s.queue))
  }

  /** Nothing refers to the socket any more. */
  predicate IsClosed(s: State) {
    s.isClosing && s.outstanding == multiset{}
  }

  datatype Op = OpIssue(c: Client, ok: bool) | OpComplete(c: Client, ok: bool) | OpAccept(c: Client, ok: bool) | OpClose

  function Apply(s: State, op: Op): State {
    match op
    case OpIssue(c, ok) => Issue(s, c, ok)
    case OpComplete(c, ok) => Complete(s, c, ok)
    case OpAccept(c, ok) => Accept(s, c, ok)
    case OpClose => Close(s)
  }

  /**
   New clients are new, and only outstanding accepts complete. The pool is filled once, before
   the socket is known to anyone who could accept from it.
   */
  predicate CanHappen(s: State, op: Op) {
    match op
    case OpIssue(c, _) => c !in s.issued && !s.isClosing && |s.issued| < POOL
    case OpComplete(c, _) => c in s.outstanding
    case OpAccept(c, _) => c !in s.issued && (|s.issued| >= POOL || s.isClosing)
    case OpClose => true
  }

  predicate IsRun(s: State, ops: seq<Op>)
    decreases |ops|
  {
    ops == [] || (CanHappen(s, ops[0]) && IsRun(Apply(s, ops[0]), ops[1..]))
  }

  function Run(s: State, ops: seq<Op>): State
    decreases |ops|
  {
    if ops == [] then s else Run(Apply(s, ops[0]), ops[1..])
  }

  // ----- what every run keeps -----

  /** Each client is in exactly one place: outstanding, in the queue, handed out, or closed. */
  ghost predicate EachOnce(s: State) {
    && s.issued == s.outstanding + multiset(s.queue) + multiset(s.handedOut) + s.closed
    && forall c :: s.issued[c] <= 1
  }

  /** Clients are handed out in the order in which their accepts completed. */
  ghost predicate InOrder(s: State) {
    if s.isClosing then s.queue == [] && s.handedOut <= s.completed else s.completed == s.handedOut + s.queue
  }

  /**
   There are never too many accepts outstanding, and only failures can make them too few. While
   the socket is open, just the clients of failed accepts have been closed.
   */
  ghost predicate PoolKept(s: State) {
    && |s.outstanding| <= POOL && |s.outstanding| <= |s.issued|
    && (!s.isClosing ==> |s.closed| == s.failures)
    && (!s.isClosing ==> |s.outstanding| + |s.queue| + s.failures >= Min(POOL, |s.issued|))
  }

  ghost predicate Inv(s: State) {
    EachOnce(s) && InOrder(s) && PoolKept(s)
  }

  lemma IssueOnce(s: State, c: Client, ok: bool)
    requires EachOnce(s) && InOrder(s) && c !in s.issued && !s.isClosing
    ensures EachOnce(Issue(s, c, ok)) && InOrder(Issue(s, c, ok))
  {
  }

  lemma IssueInv(s: State, c: Client, ok: bool)
    requires Inv(s) && c !in s.issued && !s.isClosing && |s.outstanding| < POOL
    ensures Inv(Issue(s, c, ok))
  {
    IssueOnce(s, c, ok);
  }

  lemma CompleteInv(s: State, c: Client, ok: bool)
    requires Inv(s) && c in s.outstanding
    ensures Inv(Complete(s, c, ok))
  {
    assert s.outstanding == s.outstanding - multiset{c} + multiset{c};
    if !s.isClosing && ok {
      assert s.completed + [c] == s.handedOut + (s.queue + [c]);
    }
  }

  /** Taking a client shrinks the queue and leaves the rest as it is. */
  lemma TakeFirstKeeps(s: State)
    requires EachOnce(s) && InOrder(s)
    ensures EachOnce(TakeFirst(s)) && InOrder(TakeFirst(s))
  {
    if s.queue != [] {
      var c, rest := s.queue[0], s.queue[1..];
      assert s.queue == [c] + rest;
      assert s.handedOut + s.queue == s.handedOut + [c] + rest;
    }
  }

  lemma AcceptPool(s: State, c: Client, ok: bool)
    requires PoolKept(s) && (|s.issued| >= POOL || s.isClosing)
    ensures PoolKept(Accept(s, c, ok))
  {
    var t := TakeFirst(s);
    assert |t.queue| >= |s.queue| - 1;
    if |s.outstanding| < POOL && !s.isClosing && ok {
      assert |s.outstanding + multiset{c}| == |s.outstanding| + 1;
    }
    assert |s.issued + multiset{c}| == |s.issued| + 1;
  }

  lemma AcceptInv(s: State, c: Client, ok: bool)
    requires Inv(s) && c !in s.issued && (|s.issued| >= POOL || s.isClosing)
    ensures Inv(Accept(s, c, ok))
  {
    hide EachOnce, InOrder, PoolKept, Issue;
    TakeFirstKeeps(s);
    if |s.outstanding| < POOL && !s.isClosing {
      IssueOnce(TakeFirst(s), c, ok);
    }
    AcceptPool(s, c, ok);
  }

  lemma CloseInv(s: State)
    requires Inv(s)
    ensures Inv(Close(s)) && Close(s).isClosing
  {
    assert s.handedOut <= s.handedOut + s.queue;
  }

  lemma ApplyInv(s: State, op: Op)
    requires Inv(s) && CanHappen(s, op)
    ensures Inv(Apply(s, op))
  {
    match op
    case OpIssue(c, ok) => IssueInv(s, c, ok);
    case OpComplete(c, ok) => CompleteInv(s, c, ok);
    case OpAccept(c, ok) => AcceptInv(s, c, ok);
    case OpClose => CloseInv(s);
  }

  lemma {:induction false} RunInv(s: State, ops: seq<Op>)
    requires Inv(s) && IsRun(s, ops)
    ensures Inv(Run(s, ops))
    decreases |ops|
  {
    if ops != [] {
      ApplyInv(s, ops[0]);
      RunInv(Apply(s, ops[0]), ops[1..]);
    }
  }

  function Arrival(op: Op): seq<Client> {
    if op.OpComplete? && op.ok then [op.c] else []
  }

  /** The clients whose accepts complete well before the socket is closed, in the order of completion. */
  function Arrivals(ops: seq<Op>): seq<Client> {
    if ops == [] || ops[0].OpClose? then []
    else Arrival(ops[0]) + Arrivals(ops[1..])
  }

  lemma ApplyCompletes(s: State, op: Op)
    ensures Apply(s, op).completed == s.completed + if s.isClosing then [] else Arrival(op)
    ensures Apply(s, op).isClosing <==> s.isClosing || op.OpClose?
  {
  }

  lemma {:induction false} RunCompletes(s: State, ops: seq<Op>)
    ensures Run(s, ops).completed == s.completed + if s.isClosing then [] else Arrivals(ops)
    decreases |ops|
  {
    hide Apply;
    if ops != [] {
      ApplyCompletes(s, ops[0]);
      RunCompletes(Apply(s, ops[0]), ops[1..]);
      if !s.isClosing && !ops[0].OpClose? {
        calc {
          Run(s, ops).completed;
          s.completed + Arrival(ops[0]) + Arrivals(ops[1..]);
          s.completed + (Arrival(ops[0]) + Arrivals(ops[1..]));
          s.completed + Arrivals(ops);
        }
      }
    }
  }

  /**
   Every run keeps the invariant: each client is in one place, at most five accepts are
   outstanding, and clients are handed out first come, first served, none left out while the
   socket is open.
   */
  lemma EveryRun(ops: seq<Op>)
    requires IsRun(INITIAL, ops)
    ensures Inv(Run(INITIAL, ops)) && |Run(INITIAL, ops).outstanding| <= 5
    ensures var s := Run(INITIAL, ops);
            if s.isClosing then s.queue == [] && s.handedOut <= Arrivals(ops)
            else s.handedOut + s.queue == Arrivals(ops)
  {
    assert Inv(INITIAL);
    RunInv(INITIAL, ops);
    RunCompletes(INITIAL, ops);
  }

  /** After closing, the queue stays empty for ever, and no further client is handed out. */
  lemma {:induction false} ClosedForEver(s: State, ops: seq<Op>)
    requires Inv(s) && s.isClosing && IsRun(s, ops)
    ensures var t := Run(s, ops);
            t.isClosing && t.queue == [] && t.handedOut == s.handedOut && t.outstanding <= s.outstanding
    decreases |ops|
  {
    if ops != [] {
      ApplyInv(s, ops[0]);
      ClosedForEver(Apply(s, ops[0]), ops[1..]);
    }
  }

  /**
   Once nothing refers to the socket, nothing can happen to it that changes it: it can be
   deleted, with no accept pending and no client in its queue.
   */
  lemma {:induction false} DeadForEver(s: State, ops: seq<Op>)
    requires Inv(s) && IsClosed(s) && IsRun(s, ops)
    ensures Run(s, ops) == s && s.queue == []
    decreases |ops|
  {
    if ops != [] {
      assert Apply(s, ops[0]) == s;
      DeadForEver(s, ops[1..]);
    }
  }

  /** A client that is anywhere is nowhere else. */
  lemma ExactlyOnePlace(s: State, c: Client)
    requires Inv(s) && c in s.issued
    ensures (if c in s.outstanding then 1 else 0) + (if c in s.queue then 1 else 0)
            + (if c in s.handedOut then 1 else 0) + (if c in s.closed then 1 else 0) == 1
    ensures multiset(s.queue)[c] <= 1 && multiset(s.handedOut)[c] <= 1
  {
    assert s.issued[c] == s.outstanding[c] + multiset(s.queue)[c] + multiset(s.handedOut)[c] + s.closed[c];
    assert c in s.queue <==> c in multiset(s.queue);
    assert c in s.handedOut <==> c in multiset(s.handedOut);
  }

  /** After closing, every completion brings the end nearer: as many as are outstanding, and nothing is left. */
  lemma {:induction false} Drains(s: State, ops: seq<Op>)
    requires Inv(s) && s.isClosing && IsRun(s, ops)
    requires (forall i :: 0 <= i < |ops| ==> ops[i].OpComplete?) && |ops| == |s.outstanding|
    ensures IsClosed(Run(s, ops))
    decreases |ops|
  {
    if ops != [] {
      ApplyInv(s, ops[0]);
      Drains(Apply(s, ops[0]), ops[1..]);
    }
  }

  lemma {:induction false} RunThen(s: State, ops: seq<Op>, op: Op)
    ensures Run(s, ops + [op]) == Apply(Run(s, ops), op)
    ensures IsRun(s, ops) && CanHappen(Run(s, ops), op) ==> IsRun(s, ops + [op])
    decreases |ops|
  {
    if ops == [] {
      assert ops + [op] == [op];
      assert [op][1..] == [];
    } else {
      assert (ops + [op])[1..] == ops[1..] + [op];
      RunThen(Apply(s, ops[0]), ops[1..], op);
    }
  }

  /** An open socket that nothing will ever wake up: no accept outstanding, and nothing to hand out. */
  predicate IsStarved(s: State) {
    !s.isClosing && s.outstanding == multiset{} && s.queue == []
  }

  /**
   Exactly which steps starve an open socket whose pool has been filled: the last outstanding
   accept completes and fails while nothing is queued, or the last client is taken while nothing
   is outstanding and the accept issued in its place is refused.
   */
  lemma StarvesIff(s: State, op: Op)
    requires Inv(s) && CanHappen(s, op) && !s.isClosing && |s.issued| >= POOL && !IsStarved(s)
    ensures IsStarved(Apply(s, op)) <==>
            || (op.OpComplete? && !op.ok && s.queue == [] && s.outstanding == multiset{op.c})
            || (op.OpAccept? && !op.ok && |s.queue| == 1 && s.outstanding == multiset{})
  {
    match op
    case OpIssue(_, _) =>
    case OpComplete(c, _) =>
      assert s.outstanding == s.outstanding - multiset{c} + multiset{c};
      assert s.outstanding == multiset{c} ==> s.outstanding - multiset{c} == multiset{};
    case OpAccept(c, ok) =>
      assert c in s.outstanding + multiset{c};
      assert |s.outstanding| == 0 <==> s.outstanding == multiset{};
    case OpClose =>
  }

  /** Nothing wakes a starved socket: whatever happens to it must begin with an accept or a close from outside. */
  lemma StarvedSleeps(s: State, ops: seq<Op>)
    requires IsStarved(s) && |s.issued| >= POOL && IsRun(s, ops) && ops != []
    ensures ops[0].OpAccept? || ops[0].OpClose?
  {
    assert CanHappen(s, ops[0]);
  }

  /** Only failures can starve a socket whose pool has been filled. */
  lemma StarvedByFailures(s: State)
    requires Inv(s) && |s.issued| >= POOL && IsStarved(s)
    ensures s.failures >= 5 && |s.closed| >= 5
  {
  }

  /** A run that fills the pool: client `c` is the `c`th accept issued. */
  lemma FillPool() returns (ops: seq<Op>)
    ensures IsRun(INITIAL, ops) && |Run(INITIAL, ops).issued| == POOL
    ensures var s := Run(INITIAL, ops);
            && |s.outstanding| == POOL && (forall c :: 0 <= c < POOL ==> s.outstanding[c] == 1)
            && !s.isClosing && s.queue == [] && s.failures == 0
  {
    ops := [];
    var s := INITIAL;
    assert IsRun(INITIAL, ops) && s == Run(INITIAL, ops);
    hide Run, IsRun;
    for i := 0 to POOL
      invariant |ops| == i && IsRun(INITIAL, ops) && s == Run(INITIAL, ops)
      invariant |s.issued| == i && (forall c :: c in s.issued ==> 0 <= c < i) && s.outstanding == s.issued
      invariant (forall c :: 0 <= c < i ==> s.outstanding[c] == 1) && !s.isClosing && s.queue == [] && s.failures == 0
    {
      RunThen(INITIAL, ops, OpIssue(i, true));
      ops := ops + [OpIssue(i, true)];
      s := Run(INITIAL, ops);
    }
  }

  /** And they can: a completion that fails is not replaced, so that five of them are enough. */
  lemma FiveFailuresStarve() returns (ops: seq<Op>)
    ensures IsRun(INITIAL, ops) && IsStarved(Run(INITIAL, ops)) && Run(INITIAL, ops).failures == 5
    ensures |Run(INITIAL, ops).issued| == POOL
  {
    hide Run, IsRun;
    ops := FillPool();
    var s := Run(INITIAL, ops);
    for i := 0 to POOL
      invariant IsRun(INITIAL, ops) && s == Run(INITIAL, ops) && |s.issued| == POOL
      invariant |s.outstanding| == POOL - i && (forall c :: i <= c < POOL ==> s.outstanding[c] == 1)
      invariant !s.isClosing && s.queue == [] && s.failures == i
    {
      RunThen(INITIAL, ops, OpComplete(i, false));
      ops := ops + [OpComplete(i, false)];
      s := Run(INITIAL, ops);
    }
  }
}
