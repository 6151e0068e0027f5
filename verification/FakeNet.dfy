/** The simulated network: every send starts a goroutine, so a message is in flight until it is delivered. */
module Nets {
  import opened Ledger
  import opened Network

  class FakeNet {
    var clients: set<Address>
    var inFlight: multiset<Msg>

    constructor ()
      ensures clients == {} && inFlight == multiset{}
    {
      clients := {};
      inFlight := multiset{};
    }

    method Register(clientList: seq<Address>)
      modifies this`clients
      ensures clients == old(clients) + (set a | a in clientList)
    {
      var i := 0;
      while i < |clientList|
        invariant 0 <= i <= |clientList|
        invariant clients == old(clients) + (set a | a in clientList[..i])
      {
        clients := clients + {clientList[i]};
        assert clientList[..i + 1] == clientList[..i] + [clientList[i]];
        i := i + 1;
      }
      assert clientList[..i] == clientList;
    }

    /** Starts one delivery per registered client, the sender included. */
    method Broadcast(p: Payload)
      modifies this`inFlight
      ensures inFlight == old(inFlight) + ToAll(clients, p)
    {
      var todo := clients;
      ghost var done: set<Address> := {};
      assert ToAll(done, p) == multiset{};
      while todo != {}
        invariant todo <= clients && done == clients - todo
        invariant inFlight == old(inFlight) + ToAll(done, p)
        decreases todo
      {
        var a :| a in todo;
        inFlight := inFlight + multiset{Msg(a, p)};
        assert (set x | x in done + {a} :: Msg(x, p)) == (set x | x in done :: Msg(x, p)) + {Msg(a, p)};
        assert Msg(a, p) !in (set x | x in done :: Msg(x, p));
        todo, done := todo - {a}, done + {a};
      }
      assert done == clients;
    }

    /** Starts one delivery; false where the program looks up an unknown address and calls a nil client. */
    method SendMessage(to: Address, p: Payload) returns (sent: bool)
      modifies this`inFlight
      ensures sent <==> to in clients
      ensures inFlight == old(inFlight) + if sent then multiset{Msg(to, p)} else multiset{}
    {
      sent := to in clients;
      if sent {
        inFlight := inFlight + multiset{Msg(to, p)};
      }
    }

    /** A handler call on its own goroutine. */
    method Go(at: Address, p: Payload)
      modifies this`inFlight
      ensures inFlight == old(inFlight) + multiset{Msg(at, p)}
    {
      inFlight := inFlight + multiset{Msg(at, p)};
    }
  }
}
