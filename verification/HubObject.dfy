/**
 The hub's event loop on objects: one method per case of the loop, each changing the client set and the
 clients' channels in place exactly as the model's step does.
 */
module HubObject {
  import opened HubModel

  /** The send channel of a client; only its buffer and its closing are real. */
  class Client {
    var send: seq<Item>
    var closes: nat
    ghost var received: seq<Item>
    ghost var live: seq<string>
    ghost var since: nat

    ghost function View(): Chan
      reads this
    {
      Chan(send, closes, received, live, since)
    }

    constructor ()
      ensures send == [] && closes == 0 && received == [] && live == []
    {
      send, closes := [], 0;
      received, live, since := [], [], 0;
    }

    /** Non-blocking send of one of the loop's messages. */
    method TrySend(message: string) returns (sent: bool)
      requires closes == 0
      modifies this
      ensures sent == HasRoom(old(View()))
      ensures View() == if sent then Sent(old(View()), message) else old(View())
    {
      if |send| < SEND_BUFFER {
        send := send + [Item(message, true)];
        live := live + [message];
        return true;
      }
      return false;
    }

    method Close()
      requires closes == 0
      modifies this
      ensures View() == Closed(old(View()))
    {
      closes := closes + 1;
    }
  }

  class HubLoop {
    var clients: set<Client>
    var queue: seq<string>
    ghost var known: set<Client>
    ghost var dequeued: seq<string>

    ghost predicate Valid()
      reads this, known
    {
      clients <= known && forall c :: c in clients ==> c.closes == 0
    }

    ghost function View(): Hub<Client>
      reads this, known
    {
      Hub(clients, map c | c in known :: c.View(), queue, dequeued)
    }

    constructor ()
      ensures Valid() && View() == Start<Client>()
    {
      clients, queue := {}, [];
      known, dequeued := {}, [];
    }

    method RegisterClient(c: Client)
      requires Valid() && c !in known && c.send == [] && c.closes == 0 && c.live == [] && c.received == []
      modifies this, c
      ensures Valid() && known == old(known) + {c}
      ensures Consistent(old(View())) && View() == Next(old(View()), Register(c))
    {
      c.since := |dequeued|;
      clients := clients + {c};
      known := known + {c};
    }

    method UnregisterClient(c: Client)
      requires Valid()
      modifies this`clients, c
      ensures Valid()
      ensures Consistent(old(View())) && View() == Next(old(View()), Unregister(c))
    {
      if c in clients {
        clients := clients - {c};
        c.Close();
      }
    }

    /** Called from outside the loop: never blocks, drops the message if the loop is behind. */
    method BroadcastMessage(message: string)
      requires Valid()
      modifies this`queue
      ensures Valid()
      ensures queue == if |old(queue)| < 256 then old(queue) + [message] else old(queue)
      ensures Consistent(old(View())) && View() == Next(old(View()), Broadcast(message))
    {
      if |queue| < BROADCAST_BUFFER {
        queue := queue + [message];
      }
    }

    /** First pass of a delivery: offer the message to every client, in any order, and note who is full. */
    method OfferToAll(message: string) returns (dead: set<Client>)
      requires Valid()
      modifies clients
      ensures dead == set c | c in clients && !HasRoom(old(c.View()))
      ensures forall c :: c in clients ==>
        c.View() == if HasRoom(old(c.View())) then Sent(old(c.View()), message) else old(c.View())
    {
      dead := {};
      var pending := clients;
      while pending != {}
        invariant pending <= clients
        invariant forall c :: c in pending ==> c.View() == old(c.View())
        invariant forall c :: c in clients && c !in pending ==>
          c.View() == if HasRoom(old(c.View())) then Sent(old(c.View()), message) else old(c.View())
        invariant dead == set c | c in clients && c !in pending && !HasRoom(old(c.View()))
        invariant forall c :: c in clients ==> c.closes == 0
        decreases pending
      {
        var c :| c in pending;
        var sent := c.TrySend(message);
        if !sent {
          dead := dead + {c};
        }
        pending := pending - {c};
      }
    }

    /** Second pass: forget the full clients and close their channels. */
    method DropAll(dead: set<Client>)
      requires dead <= clients && forall c :: c in dead ==> c.closes == 0
      modifies this`clients, dead
      ensures clients == old(clients) - dead
      ensures forall c :: c in dead ==> c.View() == Closed(old(c.View()))
    {
      var pending := dead;
      while pending != {}
        invariant pending <= dead && clients == old(clients) - (dead - pending)
        invariant forall c :: c in pending ==> c.View() == old(c.View())
        invariant forall c :: c in dead && c !in pending ==> c.View() == Closed(old(c.View()))
        decreases pending
      {
        var c :| c in pending;
        clients := clients - {c};
        c.Close();
        pending := pending - {c};
      }
    }

    method DeliverNext()
      requires Valid() && queue != []
      modifies this, clients
      ensures Valid() && known == old(known)
      ensures Consistent(old(View())) && View() == Next(old(View()), Deliver)
    {
      ghost var h := View();
      var message := queue[0];
      queue := queue[1..];
      dequeued := dequeued + [message];
      var dead := OfferToAll(message);
      DropAll(dead);
      assert forall c :: c in known ==> c.View() == if c in old(clients) then Offered(old(c.View()), message) else old(c.View());
      assert View().chans == Next(h, Deliver).chans;
      assert clients == (set c | c in h.clients && HasRoom(h.chans[c]));
    }
  }
}
