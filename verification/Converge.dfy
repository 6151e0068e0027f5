/** Convergence of the whole network: once no block and no request is in flight, no node is missing a parent,
    and all nodes that were there from the beginning store the same blocks. */
module Convergence {
  import opened Prelude
  import opened Ledger
  import opened Chains
  import opened Store
  import opened Honest
  import opened Mining
  import opened Forks
  import opened Wallet
  import opened Network
  import Searching
  import Delivery

  // ---------------------------------------------------------------- where a block is

  ghost predicate InFlight(env: Env, s: Net, a: Address, h: Hash) {
    exists m :: m in s.msgs && m.to == a && m.payload.ProofFound? && HashOf(env, m.payload.block) == h
  }

  /** The block is stored or waits at the node, or is on its way there. */
  ghost predicate Reached(env: Env, s: Net, a: Address, h: Hash) {
    a in s.nodes && (h in s.nodes[a].blocks || Delivery.Waiting(s.nodes[a], h) || InFlight(env, s, a, h))
  }

  /** Whatever has reached any node has reached this one. */
  ghost predicate CaughtUp(env: Env, s: Net, a: Address) {
    a in s.nodes && forall b, h :: Reached(env, s, b, h) ==> Reached(env, s, a, h)
  }

  ghost predicate StoredSomewhere(s: Net, h: Hash) {
    exists c :: c in s.nodes && h in s.nodes[c].blocks
  }

  /** The parent of the block is stored by some node. */
  ghost predicate Backed(s: Net, b: BlockVal) {
    b.meta.height > 0 ==> StoredSomewhere(s, b.meta.prev)
  }

  /** A request of a for k is on its way to a node that stores k. */
  ghost predicate Asked(s: Net, a: Address, k: Hash) {
    exists c :: c in s.nodes && k in s.nodes[c].blocks && Msg(c, MissingBlock(a, k)) in s.msgs
  }

  ghost predicate MsgsBacked(s: Net) {
    forall m :: m in s.msgs && m.payload.ProofFound? ==> Backed(s, m.payload.block)
  }

  ghost predicate NodeBacked(s: Net, n: NodeVal) {
    forall k, id :: k in n.parked && id in n.parked[k] ==> Backed(s, n.parked[k][id])
  }

  ghost predicate NodePromised(env: Env, s: Net, a: Address) {
    a in s.nodes ==> forall k :: k in s.nodes[a].parked ==> Reached(env, s, a, k) || Asked(s, a, k)
  }

  /** Every block around has its parent stored somewhere, and every missing parent is on its way or asked of a
      node that has it. */
  ghost predicate Supplied(env: Env, s: Net) {
    && MsgsBacked(s)
    && (forall a :: a in s.nodes ==> NodeBacked(s, s.nodes[a]))
    && (forall a :: NodePromised(env, s, a))
  }

  /** What every event does: nothing is lost, stores grow, and what is new somewhere is on its way to all. */
  ghost predicate Spreads(env: Env, s: Net, t: Net) {
    && s.nodes.Keys <= t.nodes.Keys
    && (forall a, h :: Reached(env, s, a, h) ==> Reached(env, t, a, h))
    && (forall a, h :: Reached(env, t, a, h) ==>
          (exists b :: Reached(env, s, b, h)) || (forall b :: b in s.nodes ==> Reached(env, t, b, h)))
  }

  ghost predicate Grows(s: Net, t: Net) {
    forall a :: a in s.nodes ==> a in t.nodes && s.nodes[a].blocks.Keys <= t.nodes[a].blocks.Keys
  }

  lemma GrowingKeepsBacked(s: Net, t: Net, b: BlockVal)
    requires Grows(s, t) && Backed(s, b)
    ensures Backed(t, b)
  {
    if b.meta.height > 0 {
      var c :| c in s.nodes && b.meta.prev in s.nodes[c].blocks;
      assert c in t.nodes && b.meta.prev in t.nodes[c].blocks;
    }
  }

  lemma SpreadKeepsCaughtUp(env: Env, s: Net, t: Net, a: Address)
    requires Spreads(env, s, t) && CaughtUp(env, s, a)
    ensures CaughtUp(env, t, a)
  {
    hide Reached;
  }

  // ---------------------------------------------------------------- events that move no block

  /** Stores, orphans, blocks in flight and requests in flight are the same. */
  ghost predicate SameBlocks(s: Net, t: Net) {
    && s.nodes.Keys == t.nodes.Keys
    && (forall a :: a in s.nodes ==> t.nodes[a].blocks == s.nodes[a].blocks && t.nodes[a].parked == s.nodes[a].parked)
    && (forall m :: m in s.msgs && (m.payload.ProofFound? || m.payload.MissingBlock?) ==> m in t.msgs)
    && (forall m :: m in t.msgs && (m.payload.ProofFound? || m.payload.MissingBlock?) ==> m in s.msgs)
  }

  lemma SameReached(env: Env, s: Net, t: Net, a: Address, h: Hash)
    requires SameBlocks(s, t)
    ensures Reached(env, s, a, h) <==> Reached(env, t, a, h)
  {
    hide HashOf;
    if InFlight(env, s, a, h) {
      var m :| m in s.msgs && m.to == a && m.payload.ProofFound? && HashOf(env, m.payload.block) == h;
      assert m in t.msgs;
    }
    if InFlight(env, t, a, h) {
      var m :| m in t.msgs && m.to == a && m.payload.ProofFound? && HashOf(env, m.payload.block) == h;
      assert m in s.msgs;
    }
  }

  lemma SameSpreads(env: Env, s: Net, t: Net)
    requires SameBlocks(s, t) && Supplied(env, s)
    ensures Spreads(env, s, t) && Supplied(env, t)
  {
    hide Reached;
    hide Backed;
    assert Grows(s, t);
    forall a, h ensures Reached(env, s, a, h) <==> Reached(env, t, a, h) { SameReached(env, s, t, a, h); }
    forall b | Backed(s, b) ensures Backed(t, b) { GrowingKeepsBacked(s, t, b); }
    hide Grows;
    forall a, k | Asked(s, a, k) ensures Asked(t, a, k) {
      var c :| c in s.nodes && k in s.nodes[c].blocks && Msg(c, MissingBlock(a, k)) in s.msgs;
      assert c in t.nodes && k in t.nodes[c].blocks && Msg(c, MissingBlock(a, k)) in t.msgs;
    }
    hide Asked;
    forall a ensures NodePromised(env, t, a) { assert NodePromised(env, s, a); }
  }

  // ---------------------------------------------------------------- delivering a block

  /** m delivers a block to a node, which becomes x, as far as blocks are concerned. */
  ghost predicate Delivers(env: Env, s: Net, t: Net, m: Msg, x: NodeVal, r: Receipt) {
    && m in s.msgs && m.payload.ProofFound? && m.to in s.nodes
    && Delivery.Effect(env, s.nodes[m.to], m.payload.block, x, r)
    && t.nodes.Keys == s.nodes.Keys && (forall c :: c in s.nodes && c != m.to ==> t.nodes[c] == s.nodes[c])
    && t.nodes[m.to].blocks == x.blocks && t.nodes[m.to].parked == x.parked
    && t.msgs == s.msgs - multiset{m} + SentOnReceipt(s.nodes.Keys, m.to, m.payload.block, r)
  }

  lemma DeliveredStays(env: Env, s: Net, t: Net, m: Msg, x: NodeVal, r: Receipt, h: Hash)
    requires Delivers(env, s, t, m, x, r) && NodeInv(env, s.nodes[m.to]) && Reached(env, s, m.to, h)
    ensures Reached(env, t, m.to, h)
  {
    hide NodeInv;
    hide Delivery.Effect;
    hide HashOf;
    var n, b := s.nodes[m.to], m.payload.block;
    Delivery.WaitersAreNamed(env, n);
    Delivery.TaskIsHeld(env, n, b, x, r);
    if Delivery.Waiting(n, h) {
      var k :| k in n.parked && h in n.parked[k];
      Delivery.WaiterIsHeld(env, n, b, x, r, k, h);
      if k !in x.parked {
        var y := Msg(m.to, ProofFound(r.freed[h]));
        assert r.freed[h] in r.freed.Values;
        assert y in Calls(m.to, r.freed);
        assert y in t.msgs;
      }
    } else if InFlight(env, s, m.to, h) {
      var y :| y in s.msgs && y.to == m.to && y.payload.ProofFound? && HashOf(env, y.payload.block) == h;
      if y != m { assert y in t.msgs; }
    }
  }

  lemma CallsAre(at: Address, freed: map<Hash, BlockVal>, y: Msg)
    requires y in Calls(at, freed)
    ensures y.to == at && y.payload.ProofFound? && y.payload.block in freed.Values
  {
  }

  lemma DeliveredBringsNothing(env: Env, s: Net, t: Net, m: Msg, x: NodeVal, r: Receipt, h: Hash)
    requires Delivers(env, s, t, m, x, r) && NodeInv(env, s.nodes[m.to]) && Reached(env, t, m.to, h)
    ensures Reached(env, s, m.to, h)
  {
    hide NodeInv;
    hide Delivery.Effect;
    hide HashOf;
    hide Calls;
    var n, b := s.nodes[m.to], m.payload.block;
    assert InFlight(env, s, m.to, HashOf(env, b));
    Delivery.WaitersAreNamed(env, n);
    Delivery.FreedWereWaiting(env, n, b, x, r);
    if h !in x.blocks {
      if Delivery.Waiting(t.nodes[m.to], h) {
        var k :| k in x.parked && h in x.parked[k];
        Delivery.EffectBringsNothingNew(env, n, b, x, r, k, h);
      } else {
        var y :| y in t.msgs && y.to == m.to && y.payload.ProofFound? && HashOf(env, y.payload.block) == h;
        if y !in s.msgs {
          CallsAre(m.to, r.freed, y);
          var id :| id in r.freed && r.freed[id] == y.payload.block;
          assert id in n.parked[HashOf(env, b)];
        }
      }
    }
  }

  /** At the other nodes nothing happens. */
  lemma ElsewhereSame(env: Env, s: Net, t: Net, m: Msg, x: NodeVal, r: Receipt, c: Address, h: Hash)
    requires Delivers(env, s, t, m, x, r) && c != m.to
    ensures Reached(env, s, c, h) <==> Reached(env, t, c, h)
  {
    hide Delivery.Effect;
    hide HashOf;
    hide Calls;
    if InFlight(env, s, c, h) {
      var y :| y in s.msgs && y.to == c && y.payload.ProofFound? && HashOf(env, y.payload.block) == h;
      assert y in t.msgs;
    }
    if InFlight(env, t, c, h) {
      var y :| y in t.msgs && y.to == c && y.payload.ProofFound? && HashOf(env, y.payload.block) == h;
      if y !in s.msgs { CallsAre(m.to, r.freed, y); }
    }
  }

  lemma DeliveredIsReached(env: Env, s: Net, t: Net, m: Msg, x: NodeVal, r: Receipt, c: Address, h: Hash)
    requires Delivers(env, s, t, m, x, r) && NodeInv(env, s.nodes[m.to])
    ensures Reached(env, s, c, h) <==> Reached(env, t, c, h)
  {
    hide NodeInv;
    hide Delivers;
    hide Reached;
    if c != m.to {
      ElsewhereSame(env, s, t, m, x, r, c, h);
    } else {
      if Reached(env, s, c, h) { DeliveredStays(env, s, t, m, x, r, h); }
      if Reached(env, t, c, h) { DeliveredBringsNothing(env, s, t, m, x, r, h); }
    }
  }

  lemma DeliveredGrows(env: Env, s: Net, t: Net, m: Msg, x: NodeVal, r: Receipt)
    requires Delivers(env, s, t, m, x, r)
    ensures Grows(s, t)
  {
    hide Delivery.Effect;
    hide HashOf;
    hide SentOnReceipt;
    Delivery.TaskIsHeld(env, s.nodes[m.to], m.payload.block, x, r);
  }

  lemma AskedStays(s: Net, t: Net, m: Msg, sent: multiset<Msg>, a: Address, k: Hash)
    requires Asked(s, a, k) && Grows(s, t) && t.msgs == s.msgs - multiset{m} + sent && !m.payload.MissingBlock?
    ensures Asked(t, a, k)
  {
    var c :| c in s.nodes && k in s.nodes[c].blocks && Msg(c, MissingBlock(a, k)) in s.msgs;
    assert Msg(c, MissingBlock(a, k)) in t.msgs;
    assert c in t.nodes && k in t.nodes[c].blocks;
  }

  lemma NewOrphanIs(env: Env, n: NodeVal, b: BlockVal, x: NodeVal, r: Receipt, k: Hash)
    requires Delivery.Effect(env, n, b, x, r) && k in x.parked && k !in n.parked
    ensures r == Parked(true) && k == b.meta.prev && b.meta.height > 0
  {
    hide HashOf;
  }

  /** A new orphan's parent is asked of everybody, and so of a node that has it. */
  lemma NewOrphanAsks(env: Env, s: Net, t: Net, m: Msg, x: NodeVal, r: Receipt, k: Hash)
    requires Delivers(env, s, t, m, x, r) && MsgsBacked(s) && Grows(s, t)
    requires k in x.parked && k !in s.nodes[m.to].parked
    ensures Asked(t, m.to, k)
  {
    hide Delivery.Effect;
    hide HashOf;
    var b := m.payload.block;
    NewOrphanIs(env, s.nodes[m.to], b, x, r, k);
    assert Backed(s, b);
    var c :| c in s.nodes && k in s.nodes[c].blocks;
    var y := Msg(c, MissingBlock(m.to, k));
    assert y in ToAll(s.nodes.Keys, MissingBlock(m.to, k));
    assert y in t.msgs && c in t.nodes && k in t.nodes[c].blocks;
  }

  lemma DeliveredKeepsBacked(env: Env, s: Net, t: Net, m: Msg, x: NodeVal, r: Receipt)
    requires Delivers(env, s, t, m, x, r) && Supplied(env, s)
    ensures MsgsBacked(t) && forall a :: a in t.nodes ==> NodeBacked(t, t.nodes[a])
  {
    hide NodePromised;
    hide Backed;
    hide HashOf;
    hide Calls;
    DeliveredGrows(env, s, t, m, x, r);
    forall b | Backed(s, b) ensures Backed(t, b) { GrowingKeepsBacked(s, t, b); }
    hide Grows;
    var n := s.nodes[m.to];
    assert Backed(s, m.payload.block) && NodeBacked(s, n);
    forall y | y in t.msgs && y.payload.ProofFound? ensures Backed(t, y.payload.block) {
      if y !in s.msgs {
        CallsAre(m.to, r.freed, y);
        var id :| id in r.freed && r.freed[id] == y.payload.block;
        assert Backed(s, n.parked[HashOf(env, m.payload.block)][id]);
      }
    }
    forall k, id | k in x.parked && id in x.parked[k] ensures Backed(t, x.parked[k][id]) {
      DeliveredOrphan(env, n, m.payload.block, x, r, k, id);
    }
    hide Delivery.Effect;
    forall a | a in t.nodes ensures NodeBacked(t, t.nodes[a]) {
      assert NodeBacked(s, s.nodes[a]);
    }
  }

  lemma DeliveredOrphan(env: Env, n: NodeVal, b: BlockVal, x: NodeVal, r: Receipt, k: Hash, id: Hash)
    requires Delivery.Effect(env, n, b, x, r) && k in x.parked && id in x.parked[k]
    ensures x.parked[k][id] == b || (k in n.parked && id in n.parked[k] && x.parked[k][id] == n.parked[k][id])
  {
    hide HashOf;
  }

  lemma DeliveredSpreads(env: Env, s: Net, t: Net, m: Msg, x: NodeVal, r: Receipt)
    requires Delivers(env, s, t, m, x, r) && NodeInv(env, s.nodes[m.to]) && Supplied(env, s)
    ensures Spreads(env, s, t) && Supplied(env, t)
  {
    hide NodeInv;
    hide Delivery.Effect;
    hide Reached;
    hide SentOnReceipt;
    hide Backed;
    hide NodeBacked;
    hide Asked;
    hide Grows;
    hide MsgsBacked;
    forall a, h ensures Reached(env, s, a, h) <==> Reached(env, t, a, h) { DeliveredIsReached(env, s, t, m, x, r, a, h); }
    DeliveredGrows(env, s, t, m, x, r);
    DeliveredKeepsBacked(env, s, t, m, x, r);
    forall a ensures NodePromised(env, t, a) {
      assert NodePromised(env, s, a);
      if a in t.nodes {
        forall k | k in t.nodes[a].parked ensures Reached(env, t, a, k) || Asked(t, a, k) {
          if k !in s.nodes[a].parked {
            NewOrphanAsks(env, s, t, m, x, r, k);
          } else if Asked(s, a, k) {
            AskedStays(s, t, m, SentOnReceipt(s.nodes.Keys, m.to, m.payload.block, r), a, k);
          }
        }
      }
    }
  }

  /** What the handler does with an honest block. */
  lemma HonestEffect(env: Env, w: World, n: NodeVal, b: BlockVal)
    requires Lawful(env, w) && HonestNode(env, w, n) && Genuine(env, w, b)
    ensures Delivery.Effect(env, n, b, Receive(env, n, b).0, Receive(env, n, b).1)
  {
    hide Receive;
    hide HonestNode;
    hide Lawful;
    hide Good;
    hide GoodLink;
    hide Keep;
    hide Park;
    HonestReceipt(env, w, n, b);
    var g := Settled(env, w, b);
    hide HashOf;
    hide Genuine;
    if HashOf(env, b) !in n.blocks {
      hide Delivery.Effect;
      if b.meta.prev in n.blocks {
        Delivery.KeepEffect(env, n, b, g);
      } else {
        Delivery.ParkEffect(env, n, b);
      }
    }
  }

  /** Cutting over does not touch the store. */
  lemma MinerKeepsStore(env: Env, n: NodeVal, b: BlockVal, order: seq<Transaction>, now: int)
    ensures var m, x := MinerReceive(env, n, b, order, now).0, Receive(env, n, b).0;
            m.blocks == x.blocks && m.parked == x.parked
  {
    hide Receive;
    hide Assemble;
    hide HashOf;
    hide SyncTransaction;
  }

  lemma DeliverBlockSpreads(env: Env, w: World, s: Net, e: Event)
    requires Lawful(env, w) && NetInv(env, w, s) && e.DeliverBlock? && Enabled(env, w, s, e) && Supplied(env, s)
    ensures Spreads(env, s, Perform(env, w, s, e)) && Supplied(env, Perform(env, w, s, e))
  {
    hide Lawful;
    hide MinerInv;
    hide Genuine;
    hide MinerReceive;
    hide Receive;
    hide OrderFits;
    hide HashOf;
    hide Delivery.Effect;
    hide Supplied;
    hide Spreads;
    hide SentOnReceipt;
    var m := e.msg;
    var n, b := s.nodes[m.to], m.payload.block;
    assert MsgOk(env, w, s.nodes.Keys, m) && NodeOk(env, w, m.to, n);
    DeliverAtNode(env, w, n, b, e.order, e.now);
    MinerIsHonest(env, w, n);
    NodeInvOf(env, w, n);
    hide HonestNode;
    HonestEffect(env, w, n, b);
    MinerKeepsStore(env, n, b, e.order, e.now);
    hide NetInv;
    var (x, r) := Receive(env, n, b);
    assert Delivers(env, s, Perform(env, w, s, e), m, x, r);
    DeliveredSpreads(env, s, Perform(env, w, s, e), m, x, r);
  }

  // ---------------------------------------------------------------- delivering a request

  /** m delivers a request for a block that c stores, or does not store; nothing but messages changes. */
  ghost predicate Replies(s: Net, t: Net, m: Msg) {
    && m in s.msgs && m.payload.MissingBlock? && m.to in s.nodes && t.nodes == s.nodes
    && var blocks := s.nodes[m.to].blocks;
       t.msgs == s.msgs - multiset{m}
                 + if m.payload.hash in blocks then multiset{Msg(m.payload.asker, ProofFound(blocks[m.payload.hash]))}
                   else multiset{}
  }

  lemma ReplyReaches(env: Env, s: Net, t: Net, m: Msg, a: Address, h: Hash)
    requires Replies(s, t, m) && TreeInv(env, s.nodes[m.to].blocks)
    ensures Reached(env, s, a, h) ==> Reached(env, t, a, h)
    ensures Reached(env, t, a, h) ==> Reached(env, s, a, h) || Reached(env, s, m.to, h)
  {
    hide Link;
    hide Rooted;
    hide HashOf;
    hide Delivery.Waiting;
    if InFlight(env, s, a, h) {
      var y :| y in s.msgs && y.to == a && y.payload.ProofFound? && HashOf(env, y.payload.block) == h;
      assert y in t.msgs;
    }
    if InFlight(env, t, a, h) {
      var y :| y in t.msgs && y.to == a && y.payload.ProofFound? && HashOf(env, y.payload.block) == h;
      if y !in s.msgs { assert y.payload.block == s.nodes[m.to].blocks[m.payload.hash]; }
    }
  }

  lemma ReplyAnswers(env: Env, s: Net, t: Net, m: Msg, a: Address, k: Hash)
    requires Replies(s, t, m) && TreeInv(env, s.nodes[m.to].blocks) && a in s.nodes && Asked(s, a, k)
    ensures Reached(env, t, a, k) || Asked(t, a, k)
  {
    hide Link;
    hide Rooted;
    hide HashOf;
    var c :| c in s.nodes && k in s.nodes[c].blocks && Msg(c, MissingBlock(a, k)) in s.msgs;
    var y := Msg(c, MissingBlock(a, k));
    if y == m {
      var z := Msg(a, ProofFound(s.nodes[c].blocks[k]));
      assert z in t.msgs;
    } else {
      assert y in t.msgs;
    }
  }

  lemma ReplySpreads(env: Env, s: Net, t: Net, m: Msg)
    requires Replies(s, t, m) && TreeInv(env, s.nodes[m.to].blocks) && Supplied(env, s)
    ensures Spreads(env, s, t) && Supplied(env, t)
  {
    hide Reached;
    hide Asked;
    hide Rooted;
    hide Link;
    hide NodeBacked;
    assert Grows(s, t);
    forall a, h
      ensures Reached(env, s, a, h) ==> Reached(env, t, a, h)
      ensures Reached(env, t, a, h) ==> Reached(env, s, a, h) || Reached(env, s, m.to, h)
    {
      ReplyReaches(env, s, t, m, a, h);
    }
    forall a ensures NodePromised(env, t, a) {
      assert NodePromised(env, s, a);
      if a in t.nodes {
        forall k | k in t.nodes[a].parked ensures Reached(env, t, a, k) || Asked(t, a, k) {
          if Asked(s, a, k) { ReplyAnswers(env, s, t, m, a, k); }
        }
      }
    }
    ReplyKeepsBacked(env, s, t, m);
  }

  lemma ReplyKeepsBacked(env: Env, s: Net, t: Net, m: Msg)
    requires Replies(s, t, m) && TreeInv(env, s.nodes[m.to].blocks) && Supplied(env, s)
    ensures MsgsBacked(t) && forall a :: a in t.nodes ==> NodeBacked(t, t.nodes[a])
  {
    hide Rooted;
    hide Link;
    hide HashOf;
    hide NodePromised;
    assert Grows(s, t);
    forall b | Backed(s, b) ensures Backed(t, b) { GrowingKeepsBacked(s, t, b); }
    forall y | y in t.msgs && y.payload.ProofFound? ensures Backed(t, y.payload.block) {
      if y !in s.msgs {
        var blocks := s.nodes[m.to].blocks;
        assert y.payload.block == blocks[m.payload.hash];
        if y.payload.block.meta.height > 0 { assert y.payload.block.meta.prev in t.nodes[m.to].blocks; }
      } else {
        assert Backed(s, y.payload.block);
      }
    }
    hide Backed;
    forall a | a in t.nodes ensures NodeBacked(t, t.nodes[a]) { assert NodeBacked(s, s.nodes[a]); }
  }

  // ---------------------------------------------------------------- mining and joining

  /** A node that stores the parent of b announces b to everybody. */
  ghost predicate Publishes(s: Net, t: Net, at: Address, b: BlockVal) {
    && at in s.nodes && (b.meta.height > 0 ==> b.meta.prev in s.nodes[at].blocks)
    && s.nodes.Keys == t.nodes.Keys
    && (forall a :: a in s.nodes ==> t.nodes[a].blocks == s.nodes[a].blocks && t.nodes[a].parked == s.nodes[a].parked)
    && t.msgs == s.msgs + Announcement(s.nodes.Keys, at, b)
  }

  lemma AnnouncementIs(all: set<Address>, at: Address, b: BlockVal, y: Msg)
    requires at in all
    ensures y in Announcement(all, at, b) <==> y.to in all && y.payload == ProofFound(b)
  {
    assert y == Msg(y.to, y.payload);
  }

  lemma PublishedReaches(env: Env, s: Net, t: Net, at: Address, b: BlockVal, a: Address, h: Hash)
    requires Publishes(s, t, at, b)
    ensures Reached(env, s, a, h) ==> Reached(env, t, a, h)
    ensures Reached(env, t, a, h) ==> Reached(env, s, a, h) || h == HashOf(env, b)
    ensures a in s.nodes ==> Reached(env, t, a, HashOf(env, b))
  {
    hide HashOf;
    hide Announcement;
    if InFlight(env, s, a, h) {
      var y :| y in s.msgs && y.to == a && y.payload.ProofFound? && HashOf(env, y.payload.block) == h;
      assert y in t.msgs;
    }
    if InFlight(env, t, a, h) {
      var y :| y in t.msgs && y.to == a && y.payload.ProofFound? && HashOf(env, y.payload.block) == h;
      if y !in s.msgs { AnnouncementIs(s.nodes.Keys, at, b, y); }
    }
    if a in s.nodes {
      AnnouncementIs(s.nodes.Keys, at, b, Msg(a, ProofFound(b)));
      assert Msg(a, ProofFound(b)) in t.msgs;
    }
  }

  lemma PublishedSpreads(env: Env, s: Net, t: Net, at: Address, b: BlockVal)
    requires Publishes(s, t, at, b) && Supplied(env, s)
    ensures Spreads(env, s, t) && Supplied(env, t)
  {
    hide Reached;
    hide NodeBacked;
    hide Announcement;
    hide HashOf;
    assert Grows(s, t);
    forall a, h
      ensures Reached(env, s, a, h) ==> Reached(env, t, a, h)
      ensures Reached(env, t, a, h) ==> Reached(env, s, a, h) || h == HashOf(env, b)
      ensures a in s.nodes ==> Reached(env, t, a, HashOf(env, b))
    {
      PublishedReaches(env, s, t, at, b, a, h);
    }
    forall a ensures NodePromised(env, t, a) {
      assert NodePromised(env, s, a);
      if a in t.nodes {
        forall k | k in t.nodes[a].parked ensures Reached(env, t, a, k) || Asked(t, a, k) {
          if Asked(s, a, k) { AskedGrows(s, t, a, k); }
        }
      }
    }
    hide Asked;
    PublishedIsBacked(env, s, t, at, b);
  }

  lemma AskedGrows(s: Net, t: Net, a: Address, k: Hash)
    requires Asked(s, a, k) && Grows(s, t) && s.msgs <= t.msgs
    ensures Asked(t, a, k)
  {
    var c :| c in s.nodes && k in s.nodes[c].blocks && Msg(c, MissingBlock(a, k)) in s.msgs;
    assert c in t.nodes && k in t.nodes[c].blocks && Msg(c, MissingBlock(a, k)) in t.msgs;
  }

  lemma PublishedIsBacked(env: Env, s: Net, t: Net, at: Address, b: BlockVal)
    requires Publishes(s, t, at, b) && Supplied(env, s)
    ensures MsgsBacked(t) && forall a :: a in t.nodes ==> NodeBacked(t, t.nodes[a])
  {
    hide HashOf;
    hide NodePromised;
    hide Announcement;
    assert Grows(s, t);
    forall x | Backed(s, x) ensures Backed(t, x) { GrowingKeepsBacked(s, t, x); }
    assert Backed(s, b);
    hide Backed;
    forall y | y in t.msgs && y.payload.ProofFound? ensures Backed(t, y.payload.block) {
      if y !in s.msgs { AnnouncementIs(s.nodes.Keys, at, b, y); }
    }
    forall a | a in t.nodes ensures NodeBacked(t, t.nodes[a]) { assert NodeBacked(s, s.nodes[a]); }
  }

  /** A node with no orphans joins, and stores nothing that the others do not store. */
  ghost predicate Joins(s: Net, t: Net, n: NodeVal) {
    && n.address !in s.nodes && t == Net(s.nodes[n.address := n], s.msgs) && n.parked == map[]
    && (forall m :: m in s.msgs ==> m.to in s.nodes)
    && (forall a, h :: a in s.nodes && h in n.blocks ==> h in s.nodes[a].blocks)
  }

  lemma JoinedReaches(env: Env, s: Net, t: Net, n: NodeVal, a: Address, h: Hash)
    requires Joins(s, t, n)
    ensures Reached(env, s, a, h) ==> Reached(env, t, a, h)
    ensures Reached(env, t, a, h) ==> Reached(env, s, a, h) || forall b :: b in s.nodes ==> Reached(env, t, b, h)
  {
    hide HashOf;
    if Reached(env, t, a, h) && a == n.address { assert h in n.blocks; }
  }

  lemma JoinSpreads(env: Env, s: Net, t: Net, n: NodeVal)
    requires Joins(s, t, n) && Supplied(env, s)
    ensures Spreads(env, s, t) && Supplied(env, t)
  {
    hide Reached;
    assert Grows(s, t);
    forall x | Backed(s, x) ensures Backed(t, x) { GrowingKeepsBacked(s, t, x); }
    forall a, h
      ensures Reached(env, s, a, h) ==> Reached(env, t, a, h)
      ensures Reached(env, t, a, h) ==> Reached(env, s, a, h) || forall b :: b in s.nodes ==> Reached(env, t, b, h)
    {
      JoinedReaches(env, s, t, n, a, h);
    }
    hide Backed;
    forall a ensures NodePromised(env, t, a) {
      assert NodePromised(env, s, a);
      if a in s.nodes {
        forall k | k in t.nodes[a].parked ensures Reached(env, t, a, k) || Asked(t, a, k) {
          if Asked(s, a, k) { AskedGrows(s, t, a, k); }
        }
      }
    }
    hide Asked;
    hide NodePromised;
    forall a | a in t.nodes ensures NodeBacked(t, t.nodes[a]) { if a in s.nodes { assert NodeBacked(s, s.nodes[a]); } }
  }

  // ---------------------------------------------------------------- every event

  lemma CurrentParentIsStored(env: Env, w: World, n: NodeVal)
    requires MinerInv(env, w, n) && n.current.Some?
    ensures n.current.value.meta.prev in n.blocks
  {
    hide Good;
    hide Genuine;
    hide Announceable;
    hide NodeInv;
    LastIsGood(env, w, n);
    hide HashOf;
  }

  /** A node that keeps its blocks announces b, or nothing. */
  lemma PublishesIs(s: Net, t: Net, at: Address, m: NodeVal, b: BlockVal, found: bool)
    requires at in s.nodes && t.nodes == s.nodes[at := m]
    requires m.blocks == s.nodes[at].blocks && m.parked == s.nodes[at].parked && b.meta.prev in m.blocks
    requires t.msgs == s.msgs + if found then Announcement(s.nodes.Keys, at, b) else multiset{}
    ensures if found then Publishes(s, t, at, b) else SameBlocks(s, t)
  {
    hide Announcement;
  }

  lemma MinePublishes(env: Env, w: World, s: Net, e: Event) returns (b: BlockVal, found: bool)
    requires NetInv(env, w, s) && e.Mine? && Enabled(env, w, s, e)
    ensures if found then Publishes(s, Perform(env, w, s, e), e.at, b) else SameBlocks(s, Perform(env, w, s, e))
  {
    hide FindProof;
    hide Perform;
    hide MinerInv;
    hide MsgOk;
    hide Announcement;
    hide Publishes;
    hide SameBlocks;
    hide Searching.Solves;
    var n := s.nodes[e.at];
    Searching.MineEventIs(env, w, s, e);
    assert NodeOk(env, w, e.at, n);
    CurrentParentIsStored(env, w, n);
    Searching.FindProofSearches(env, n, e.rounds);
    var m := FindProof(env, n, e.rounds).0;
    b, found := m.current.value, FindProof(env, n, e.rounds).1;
    PublishesIs(s, Perform(env, w, s, e), e.at, m, b, found);
  }

  lemma MineSpreads(env: Env, w: World, s: Net, e: Event)
    requires NetInv(env, w, s) && e.Mine? && Enabled(env, w, s, e) && Supplied(env, s)
    ensures Spreads(env, s, Perform(env, w, s, e)) && Supplied(env, Perform(env, w, s, e))
  {
    hide NetInv;
    hide Perform;
    hide Supplied;
    hide Spreads;
    hide SameBlocks;
    hide Publishes;
    var t := Perform(env, w, s, e);
    var b, found := MinePublishes(env, w, s, e);
    if found { PublishedSpreads(env, s, t, e.at, b); } else { SameSpreads(env, s, t); }
  }

  lemma RequestSpreads(env: Env, w: World, s: Net, e: Event)
    requires NetInv(env, w, s) && e.DeliverRequest? && Enabled(env, w, s, e) && Supplied(env, s)
    ensures Spreads(env, s, Perform(env, w, s, e)) && Supplied(env, Perform(env, w, s, e))
  {
    hide Supplied;
    hide Spreads;
    hide TreeInv;
    hide ParkedInv;
    hide TipInv;
    hide Good;
    hide Genuine;
    hide WorksOn;
    var n := s.nodes[e.msg.to];
    assert NodeOk(env, w, e.msg.to, n);
    ReplySpreads(env, s, Perform(env, w, s, e), e.msg);
  }

  lemma JoinEventSpreads(env: Env, w: World, s: Net, e: Event)
    requires NetInv(env, w, s) && e.Join? && Enabled(env, w, s, e) && Supplied(env, s)
    ensures Spreads(env, s, Perform(env, w, s, e)) && Supplied(env, Perform(env, w, s, e))
  {
    hide Supplied;
    hide Spreads;
    hide NodeInv;
    hide Good;
    hide Genuine;
    hide WorksOn;
    hide HashOf;
    hide Sound;
    var t := Perform(env, w, s, e);
    forall m | m in s.msgs ensures m.to in s.nodes { assert MsgOk(env, w, s.nodes.Keys, m); }
    forall a, h | a in s.nodes && h in e.node.blocks ensures h in s.nodes[a].blocks { assert NodeOk(env, w, a, s.nodes[a]); }
    assert Joins(s, t, e.node);
    JoinSpreads(env, s, t, e.node);
  }

  lemma TxMovesNoBlock(env: Env, w: World, s: Net, e: Event)
    requires e.DeliverTx? && Enabled(env, w, s, e)
    ensures SameBlocks(s, Perform(env, w, s, e))
  {
  }

  lemma SpendMovesNoBlock(env: Env, w: World, s: Net, e: Event)
    requires e.Spend? && Enabled(env, w, s, e)
    ensures SameBlocks(s, Perform(env, w, s, e))
  {
    hide AvailableGold;
    hide Sound;
  }

  lemma BeginMovesNoBlock(env: Env, w: World, s: Net, e: Event)
    requires e.Begin? && Enabled(env, w, s, e)
    ensures SameBlocks(s, Perform(env, w, s, e))
  {
    hide Assemble;
    hide NewBlock;
  }

  lemma QuietEventSpreads(env: Env, w: World, s: Net, e: Event)
    requires (e.DeliverTx? || e.Spend? || e.Begin?) && Enabled(env, w, s, e) && Supplied(env, s)
    ensures Spreads(env, s, Perform(env, w, s, e)) && Supplied(env, Perform(env, w, s, e))
  {
    hide Supplied;
    hide Spreads;
    hide Perform;
    hide Enabled;
    hide SameBlocks;
    if e.DeliverTx? { TxMovesNoBlock(env, w, s, e); }
    if e.Spend? { SpendMovesNoBlock(env, w, s, e); }
    if e.Begin? { BeginMovesNoBlock(env, w, s, e); }
    SameSpreads(env, s, Perform(env, w, s, e));
  }

  lemma EventSpreads(env: Env, w: World, s: Net, e: Event)
    requires Lawful(env, w) && NetInv(env, w, s) && Enabled(env, w, s, e) && Supplied(env, s)
    ensures Spreads(env, s, Perform(env, w, s, e)) && Supplied(env, Perform(env, w, s, e))
  {
    hide Perform;
    hide Lawful;
    hide NetInv;
    hide Enabled;
    hide Supplied;
    hide Spreads;
    match e
    case DeliverBlock(_, _, _) => DeliverBlockSpreads(env, w, s, e);
    case DeliverRequest(_) => RequestSpreads(env, w, s, e);
    case Mine(_, _) => MineSpreads(env, w, s, e);
    case Join(_) => JoinEventSpreads(env, w, s, e);
    case _ => QuietEventSpreads(env, w, s, e);
  }

  // ---------------------------------------------------------------- whole runs

  lemma {:induction false} RunSupplies(env: Env, w: World, ss: seq<Net>, es: seq<Event>, i: nat)
    requires Lawful(env, w) && NetRun(env, w, ss, es) && i < |ss|
    ensures Supplied(env, ss[i])
  {
    hide Perform;
    hide Lawful;
    hide Enabled;
    hide NetInv;
    if i > 0 {
      RunSupplies(env, w, ss, es, i - 1);
      RunKeepsNet(env, w, ss, es, i - 1);
      hide Supplied;
      assert Enabled(env, w, ss[i - 1], es[i - 1]) && ss[i] == Perform(env, w, ss[i - 1], es[i - 1]);
      EventSpreads(env, w, ss[i - 1], es[i - 1]);
    }
  }

  /** A node that has caught up stays so, whatever happens. */
  lemma {:induction false} StaysCaughtUp(env: Env, w: World, ss: seq<Net>, es: seq<Event>, i: nat, j: nat, a: Address)
    requires Lawful(env, w) && NetRun(env, w, ss, es) && i <= j < |ss| && CaughtUp(env, ss[i], a)
    ensures CaughtUp(env, ss[j], a)
    decreases j
  {
    hide Perform;
    hide Lawful;
    hide Enabled;
    hide NetInv;
    hide Supplied;
    hide CaughtUp;
    hide Spreads;
    if i < j {
      StaysCaughtUp(env, w, ss, es, i, j - 1, a);
      RunKeepsNet(env, w, ss, es, j - 1);
      RunSupplies(env, w, ss, es, j - 1);
      assert Enabled(env, w, ss[j - 1], es[j - 1]) && ss[j] == Perform(env, w, ss[j - 1], es[j - 1]);
      EventSpreads(env, w, ss[j - 1], es[j - 1]);
      SpreadKeepsCaughtUp(env, ss[j - 1], ss[j], a);
    }
  }

  /** No block and no request is in flight. */
  ghost predicate AtRest(s: Net) {
    forall m :: m in s.msgs ==> !m.payload.ProofFound? && !m.payload.MissingBlock?
  }

  /** Nothing has been mined yet. */
  ghost predicate Unmined(env: Env, w: World, s: Net) {
    && (forall m :: m in s.msgs ==> !m.payload.ProofFound?)
    && (forall a :: a in s.nodes ==> s.nodes[a].blocks.Keys == {HashOf(env, w.genesis)} && s.nodes[a].parked == map[])
  }

  lemma UnminedIsCaughtUp(env: Env, w: World, s: Net, a: Address)
    requires Unmined(env, w, s) && a in s.nodes
    ensures CaughtUp(env, s, a)
  {
    hide HashOf;
  }

  /** Descends from a missing parent to an older one. */
  lemma {:induction false} NoneWaits(env: Env, s: Net, a: Address, k: Hash)
    requires Ideal(env) && Supplied(env, s) && AtRest(s) && a in s.nodes && NodeInv(env, s.nodes[a])
    ensures k !in s.nodes[a].parked
    decreases env.age(k)
  {
    hide Ideal;
    hide NodeInv;
    hide HashOf;
    hide NodeBacked;
    hide MsgsBacked;
    var n := s.nodes[a];
    if k in n.parked {
      Delivery.WaitersAreNamed(env, n);
      assert NodePromised(env, s, a);
      hide Supplied;
      assert Delivery.Waiting(n, k);
      var j :| j in n.parked && k in n.parked[j];
      IsYounger(env, n.parked[j][k]);
      NoneWaits(env, s, a, j);
    }
  }

  /** Two honest nodes: what both store is the same. */
  lemma SameUnderOneHash(env: Env, w: World, m: NodeVal, n: NodeVal, h: Hash)
    requires Ideal(env) && HonestNode(env, w, m) && HonestNode(env, w, n) && h in m.blocks && h in n.blocks
    ensures m.blocks[h] == n.blocks[h]
  {
    hide Good;
    NodeInvOf(env, w, m);
    NodeInvOf(env, w, n);
    KeyIsHash(env, m, h);
    KeyIsHash(env, n, h);
    hide NodeInv;
    GoodUnique(env, w, m.blocks[h], n.blocks[h]);
  }

  lemma RestingStore(env: Env, w: World, s: Net, a: Address, b: Address)
    requires Ideal(env) && Supplied(env, s) && AtRest(s) && CaughtUp(env, s, a) && b in s.nodes
    requires HonestNode(env, w, s.nodes[a]) && HonestNode(env, w, s.nodes[b])
    ensures s.nodes[a].parked == map[] && Extends(s.nodes[b].blocks, s.nodes[a].blocks)
  {
    hide HonestNode;
    hide HashOf;
    hide Ideal;
    NodeInvOf(env, w, s.nodes[a]);
    forall k ensures k !in s.nodes[a].parked { NoneWaits(env, s, a, k); }
    hide Supplied;
    forall h | h in s.nodes[b].blocks ensures h in s.nodes[a].blocks && s.nodes[a].blocks[h] == s.nodes[b].blocks[h] {
      assert Reached(env, s, b, h);
      assert Reached(env, s, a, h);
      SameUnderOneHash(env, w, s.nodes[a], s.nodes[b], h);
    }
  }

  lemma SameBothWays(c: map<Hash, BlockVal>, d: map<Hash, BlockVal>)
    requires Extends(c, d) && Extends(d, c)
    ensures c == d
  {
  }

  lemma SameStoreSameHeight(env: Env, m: NodeVal, n: NodeVal)
    requires NodeInv(env, m) && NodeInv(env, n) && m.blocks == n.blocks
    ensures m.last.meta.height == n.last.meta.height
  {
    hide TreeInv;
    hide ParkedInv;
    hide HashOf;
    hide ConfirmedOf;
  }

  /** Convergence: once no block and no request is in flight, no node waits for a parent; a node that was there
      before anything was mined stores every block that any node stores; and so all of these store the same
      blocks, under tips of the same height. */
  lemma NetworkConverges(env: Env, w: World, ss: seq<Net>, es: seq<Event>, i: nat, j: nat)
    requires Lawful(env, w) && NetRun(env, w, ss, es) && i <= j < |ss|
    requires Unmined(env, w, ss[i]) && AtRest(ss[j])
    ensures ss[i].nodes.Keys <= ss[j].nodes.Keys
    ensures forall a :: a in ss[j].nodes ==> ss[j].nodes[a].parked == map[]
    ensures forall a, b :: a in ss[i].nodes && b in ss[j].nodes ==> Extends(ss[j].nodes[b].blocks, ss[j].nodes[a].blocks)
    ensures forall a, b :: a in ss[i].nodes && b in ss[i].nodes ==>
              && ss[j].nodes[a].blocks == ss[j].nodes[b].blocks
              && ss[j].nodes[a].last.meta.height == ss[j].nodes[b].last.meta.height
  {
    hide Lawful;
    hide NetRun;
    hide Supplied;
    hide HonestNode;
    hide AtRest;
    hide Unmined;
    hide WorksOn;
    hide Sound;
    IdealOf(env, w);
    RunKeepsNet(env, w, ss, es, j);
    RunSupplies(env, w, ss, es, j);
    forall a | a in ss[j].nodes ensures HonestNode(env, w, ss[j].nodes[a]) { assert NodeOk(env, w, a, ss[j].nodes[a]); }
    hide NetInv;
    hide Ideal;
    forall a | a in ss[j].nodes ensures ss[j].nodes[a].parked == map[] {
      NodeInvOf(env, w, ss[j].nodes[a]);
      forall k ensures k !in ss[j].nodes[a].parked { NoneWaits(env, ss[j], a, k); }
    }
    forall a | a in ss[i].nodes ensures CaughtUp(env, ss[j], a) {
      UnminedIsCaughtUp(env, w, ss[i], a);
      StaysCaughtUp(env, w, ss, es, i, j, a);
    }
    forall a, b | a in ss[i].nodes && b in ss[j].nodes ensures Extends(ss[j].nodes[b].blocks, ss[j].nodes[a].blocks) {
      RestingStore(env, w, ss[j], a, b);
    }
    hide CaughtUp;
    forall a, b | a in ss[i].nodes && b in ss[i].nodes
      ensures ss[j].nodes[a].blocks == ss[j].nodes[b].blocks
      ensures ss[j].nodes[a].last.meta.height == ss[j].nodes[b].last.meta.height
    {
      SameBothWays(ss[j].nodes[a].blocks, ss[j].nodes[b].blocks);
      NodeInvOf(env, w, ss[j].nodes[a]);
      NodeInvOf(env, w, ss[j].nodes[b]);
      SameStoreSameHeight(env, ss[j].nodes[a], ss[j].nodes[b]);
    }
  }
}
