/**
 The listening socket on Windows: a linked queue of accepted client sockets, counters, and a
 closing flag. Answers of the operating system are parameters.
 */
module ListenSocket {
  import opened Basics
  import Q = AcceptQueue

  class ClientSocket {
    const id: Q.Client
    var next: ClientSocket?
    var isConnected: bool
    var isClosed: bool

    constructor (id: Q.Client)
      ensures this.id == id && next == null && !isConnected && !isClosed
    {
      this.id, next, isConnected, isClosed := id, null, false, false;
    }

    method Close()
      modifies this`isClosed
      ensures isClosed
    {
      isClosed := true;
    }
  }

  ghost function Ids(queue: seq<ClientSocket>): (r: seq<Q.Client>)
    ensures |r| == |queue| && forall i :: 0 <= i < |r| ==> r[i] == queue[i].id
  {
    if queue == [] then [] else [queue[0].id] + Ids(queue[1..])
  }

  ghost function Behind(queue: seq<ClientSocket>, i: nat): ClientSocket? {
    if i + 1 < |queue| then queue[i + 1] else null
  }

  ghost function Footprint(client: ClientSocket?): set<ClientSocket> {
    if client == null then {} else {client}
  }

  lemma IdsAppend(queue: seq<ClientSocket>, client: ClientSocket)
    ensures Ids(queue + [client]) == Ids(queue) + [client.id]
  {
  }

  lemma IdsTail(queue: seq<ClientSocket>)
    requires queue != []
    ensures Ids(queue)[0] == queue[0].id && Ids(queue)[1..] == Ids(queue[1..])
  {
  }

  /** The state while clients are being closed: the first `n` in the queue are gone. */
  ghost function ClosingDown(was: Q.State, n: nat): (m: Q.State)
    requires n <= |was.queue|
    ensures |m.queue| == |was.queue| - n && (n < |was.queue| ==> m.queue[0] == was.queue[n])
  {
    was.(isClosing := true, queue := was.queue[n..], closed := was.closed + multiset(was.queue[..n]))
  }

  lemma ClosingDownStep(was: Q.State, n: nat, c: Q.Client)
    requires n < |was.queue|
    ensures var m, id := ClosingDown(was, n), was.queue[n];
            Q.Accept(m, c, false).(handedOut := was.handedOut, closed := m.closed + multiset{id}) ==
            ClosingDown(was, n + 1)
  {
    assert was.queue[..n + 1] == was.queue[..n] + [was.queue[n]] && was.queue[n..][1..] == was.queue[n + 1..];
  }

  lemma CompleteInv(s: Q.State, c: Q.Client, ok: bool)
    requires Q.Inv(s) && Q.CanHappen(s, Q.OpComplete(c, ok))
    ensures c in s.outstanding && Q.Inv(Q.Complete(s, c, ok))
  {
    Q.ApplyInv(s, Q.OpComplete(c, ok));
  }

  class ListenSocket {
    var isClosing: bool
    var pendingAcceptCount: int
    var acceptedHead: ClientSocket?
    var acceptedTail: ClientSocket?
    var acceptedCount: int
    ghost var queue: seq<ClientSocket>
    ghost var model: Q.State

    /** From head to tail, each client is linked to the one behind it. */
    ghost predicate IsLinked()
      reads this`acceptedHead, this`acceptedTail, this`acceptedCount, this`queue, queue`next
    {
      && (forall i, j :: 0 <= i < j < |queue| ==> queue[i] != queue[j])
      && (forall i :: 0 <= i < |queue| ==> queue[i].next == Behind(queue, i))
      && acceptedHead == (if queue == [] then null else queue[0])
      && acceptedTail == (if queue == [] then null else queue[|queue| - 1])
      && acceptedCount == |queue|
    }

    /** The socket and its queue are in the state `model`. */
    ghost predicate IsConsistent()
      reads this, queue
    {
      && IsLinked() && Ids(queue) == model.queue
      && isClosing == model.isClosing && pendingAcceptCount == |model.outstanding|
    }

    /** And between calls that state is one that runs reach; it is not while the socket closes. */
    ghost predicate Valid()
      reads this, queue
    {
      IsConsistent() && Q.Inv(model)
    }

    constructor ()
      ensures Valid() && model == Q.INITIAL && queue == []
    {
      isClosing, pendingAcceptCount, acceptedCount := false, 0, 0;
      acceptedHead, acceptedTail := null, null;
      queue, model := [], Q.INITIAL;
    }

    predicate HasPendingAccept()
      reads this
    {
      pendingAcceptCount > 0
    }

    /** Asks for one more accept, into the new socket `c`. */
    method IssueAccept(c: Q.Client, ok: bool) returns (issued: bool)
      requires IsConsistent()
      modifies this`pendingAcceptCount, this`model
      ensures IsConsistent() && model == Q.Issue(old(model), c, ok) && issued == ok
      ensures old(Valid() && Q.CanHappen(model, Q.OpIssue(c, ok))) ==> Valid()
    {
      hide Ids, Q.Inv, IsLinked;
      if Q.Inv(model) && Q.CanHappen(model, Q.OpIssue(c, ok)) {
        Q.ApplyInv(model, Q.OpIssue(c, ok));
      }
      model := Q.Issue(model, c, ok);
      if !ok {
        return false;
      }
      pendingAcceptCount := pendingAcceptCount + 1;
      return true;
    }

    /** Puts a client at the end of the queue. */
    method Enqueue(client: ClientSocket)
      requires IsLinked() && client !in queue && client.next == null
      modifies this`acceptedHead, this`acceptedTail, this`acceptedCount, this`queue, Footprint(acceptedTail)`next
      ensures IsLinked() && queue == old(queue) + [client]
    {
      if acceptedHead == null {
        acceptedHead := client;
        acceptedTail := client;
      } else {
        acceptedTail.next := client;
        acceptedTail := client;
      }
      acceptedCount := acceptedCount + 1;
      queue := queue + [client];
    }

    /** The accept into `c` has completed; `ok` tells whether the client could be set up. */
    method AcceptComplete(c: Q.Client, ok: bool)
      requires Valid() && Q.CanHappen(model, Q.OpComplete(c, ok))
      modifies this`pendingAcceptCount, this`acceptedHead, this`acceptedTail, this`acceptedCount, this`queue, this`model
      modifies Footprint(acceptedTail)`next
      ensures Valid() && model == Q.Complete(old(model), c, ok)
      ensures queue == old(queue) ||
              (&& |queue| == |old(queue)| + 1 && queue[..|old(queue)|] == old(queue) && fresh(queue[|old(queue)|])
               && queue[|old(queue)|].isConnected)
    {
      hide Ids, Q.Inv, Q.CanHappen, Q.Apply, IsLinked;
      CompleteInv(model, c, ok);
      if !isClosing && ok {
        var client := new ClientSocket(c);
        client.isConnected := true;
        IdsAppend(queue, client);
        Enqueue(client);
      }
      pendingAcceptCount := pendingAcceptCount - 1;
      model := Q.Complete(model, c, ok);
    }

    method CanAccept() returns (r: bool)
      requires IsConsistent()
      ensures r <==> model.queue != []
    {
      return acceptedHead != null;
    }

    /** Takes the first client off the queue. */
    method Dequeue() returns (client: ClientSocket?)
      requires IsLinked()
      modifies this`acceptedHead, this`acceptedTail, this`acceptedCount, this`queue, Footprint(acceptedHead)`next
      ensures IsLinked()
      ensures if old(queue) == [] then client == null && queue == []
              else client == old(queue)[0] && client.next == null && queue == old(queue)[1..]
    {
      client := null;
      if acceptedHead != null {
        client := acceptedHead;
        acceptedHead := acceptedHead.next;
        if acceptedHead == null {
          acceptedTail := null;
        }
        client.next := null;
        acceptedCount := acceptedCount - 1;
        queue := queue[1..];
      }
    }

    /** Hands out the first client, and keeps the pool of accepts filled while the socket is open. */
    method Accept(c: Q.Client, ok: bool) returns (client: ClientSocket?)
      requires IsConsistent()
      modifies this`pendingAcceptCount, this`acceptedHead, this`acceptedTail, this`acceptedCount, this`queue, this`model
      modifies Footprint(acceptedHead)`next
      ensures IsConsistent() && model == Q.Accept(old(model), c, ok)
      ensures old(Valid() && Q.CanHappen(model, Q.OpAccept(c, ok))) ==> Valid()
      ensures if old(queue) == [] then client == null && queue == []
              else client == old(queue)[0] && client.next == null && queue == old(queue)[1..]
      ensures client != null ==> Q.First(old(model)) == Some(client.id)
    {
      hide Ids, Q.Inv, IsLinked;
      if Q.Inv(model) && Q.CanHappen(model, Q.OpAccept(c, ok)) {
        Q.ApplyInv(model, Q.OpAccept(c, ok));
      }
      if queue != [] {
        IdsTail(queue);
      }
      client := Dequeue();
      model := Q.TakeFirst(model);
      if pendingAcceptCount < Q.POOL {
        if !isClosing {
          var issued := IssueAccept(c, ok);
        }
      }
    }

    /** The first `n` clients of the closing socket have been closed. */
    ghost predicate IsClosingDown(was: Q.State, n: nat)
      reads this
    {
      n <= |was.queue| && model == ClosingDown(was, n)
    }

    /** Closes the first client in the queue. */
    method CloseFirst(c: Q.Client, ghost was: Q.State, ghost n: nat)
      requires IsConsistent() && IsClosingDown(was, n) && queue != []
      modifies this`pendingAcceptCount, this`acceptedHead, this`acceptedTail, this`acceptedCount, this`queue, this`model
      modifies queue[0]
      ensures IsConsistent() && IsClosingDown(was, n + 1) && queue == old(queue)[1..]
      ensures old(queue)[0].isClosed && old(queue)[0].next == null
    {
      hide Ids, Q.Accept, ClosingDown;
      ghost var id := model.queue[0];
      var client := Accept(c, false);
      client.Close();
      ClosingDownStep(was, n, c);
      model := model.(handedOut := was.handedOut, closed := old(model).closed + multiset{id});
    }

    /** Closes the clients nobody has asked for. */
    method DoClose(c: Q.Client, ghost was: Q.State, ghost clients: seq<ClientSocket>)
      requires IsConsistent() && IsClosingDown(was, 0) && clients == queue
      modifies this`pendingAcceptCount, this`acceptedHead, this`acceptedTail, this`acceptedCount, this`queue, this`model
      modifies clients
      ensures IsConsistent() && queue == [] && IsClosingDown(was, |was.queue|)
      ensures forall k :: 0 <= k < |clients| ==> clients[k].isClosed && clients[k].next == null
    {
      hide Ids, ClosingDown, Behind;
      ghost var n := 0;
      var more := CanAccept();
      while more
        invariant && IsConsistent() && IsClosingDown(was, n)
                  && n <= |clients| && queue == clients[n..] && more == (queue != [])
        invariant forall k :: 0 <= k < n ==> clients[k].isClosed && clients[k].next == null && clients[k] !in queue
        decreases |queue|
      {
        assert queue[0] == clients[n] && clients[n] !in queue[1..];
        CloseFirst(c, was, n);
        n := n + 1;
        more := CanAccept();
      }
    }

    /** Closing takes effect once. */
    method Close(c: Q.Client)
      requires Valid()
      modifies this, queue
      ensures Valid() && model == Q.Close(old(model))
      ensures !old(isClosing) ==> queue == [] && forall k :: 0 <= k < |old(queue)| ==> old(queue)[k].isClosed
    {
      hide Ids, Q.Inv;
      Q.ApplyInv(model, Q.OpClose);
      if !isClosing {
        isClosing := true;
        ghost var was, clients := model, queue;
        model := model.(isClosing := true);
        DoClose(c, was, clients);
        assert was.queue[..|was.queue|] == was.queue;
      }
    }

    predicate IsClosed()
      reads this
    {
      isClosing && !HasPendingAccept()
    }

    /** What the destructor asserts holds whenever the last reference is dropped. */
    method DeleteIfClosed() returns (deleted: bool)
      requires Valid()
      ensures deleted <==> Q.IsClosed(model)
      ensures deleted ==> !HasPendingAccept() && acceptedHead == null && acceptedTail == null
    {
      hide Ids;
      return IsClosed();
    }
  }
}
