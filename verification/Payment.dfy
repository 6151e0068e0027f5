/** The way of a payment: posted by a client, delivered to the miners, offered to a block, and paid. */
module Payments {
  import opened Prelude
  import opened Ledger
  import opened Chains
  import opened Store
  import opened Honest
  import opened Mining
  import opened Forks
  import opened Wallet
  import opened Network
  import opened Accounts

  /** The private key belongs to the public key: the verifier accepts whatever is signed with it. */
  ghost predicate KeysMatch(env: Env, key: string, pubkey: string) {
    forall info: TransactionInfo :: info.pubkey == pubkey ==> env.verifier(Transaction(info, Some(env.signer(key, info))))
  }

  // ---------------------------------------------------------------- the posted transaction

  /** A posted transaction pays the outputs and the fee that were asked for, carries the client's next nonce and is
      signed with its key. It is pending, and nothing else of the client changes but the nonce. */
  lemma PostedIs(env: Env, n: NodeVal, outputs: seq<Output>, fee: u32, pubkey: string)
    requires PostTransaction(env, n, outputs, fee, pubkey).Some?
    ensures var (m, tx) := PostTransaction(env, n, outputs, fee, pubkey).value;
            && tx.info.from == n.address && tx.info.nonce == n.nonce && tx.info.pubkey == pubkey
            && tx.info.outputs == outputs && outputs != [] && tx.info.fee == fee && tx.info.data == ""
            && tx.sig == Some(env.signer(n.key, tx.info))
            && m == n.(outgoing := n.outgoing + {tx}, nonce := (n.nonce + 1) % 0x1_0000_0000)
  {
    hide TotalOutput;
    hide AvailableGold;
  }

  /** With matching keys it is good: a block takes it exactly if the client is listed, can pay for it, has come to
      its nonce in this block, and the block does not list its id. */
  lemma PostedIsAcceptedIff(env: Env, n: NodeVal, outputs: seq<Output>, fee: u32, pubkey: string, book: Book)
    requires KeysMatch(env, n.key, pubkey) && PostTransaction(env, n, outputs, fee, pubkey).Some?
    ensures var tx := PostTransaction(env, n, outputs, fee, pubkey).value.1;
            Apply(env, book, tx).Accepted? <==>
              && Has(book.balances, n.address)
              && (Paid(outputs) + fee) % 0x1_0000_0000 <= Get(book.balances, n.address)
              && Get(book.nonces, n.address) == n.nonce
              && (forall e :: e in book.txs ==> e.id != env.txHash(tx))
  {
    hide Apply;
    hide Get;
    hide Has;
    hide Paid;
    hide PostTransaction;
    PostedIs(env, n, outputs, fee, pubkey);
    var tx := PostTransaction(env, n, outputs, fee, pubkey).value.1;
    assert tx == Transaction(tx.info, Some(env.signer(n.key, tx.info)));
    AcceptsIff(env, book, tx);
  }

  /** Then the client pays the outputs and the fee, every address gets what the outputs say, and the fee is burned. */
  lemma PostedMoves(env: Env, n: NodeVal, outputs: seq<Output>, fee: u32, pubkey: string, book: Book, a: Address)
    requires PostTransaction(env, n, outputs, fee, pubkey).Some?
    requires Apply(env, book, PostTransaction(env, n, outputs, fee, pubkey).value.1).Accepted?
    ensures var after := Apply(env, book, PostTransaction(env, n, outputs, fee, pubkey).value.1).book;
            var due := Get(book.balances, a) - (if a == n.address then Paid(outputs) + fee else 0) + PaidTo(outputs, a);
            && Congruent(Get(after.balances, a), due)
            && Congruent(Total(after.balances), Total(book.balances) - fee)
            && (Total(book.balances) < 0x1_0000_0000 && Paid(outputs) + fee < 0x1_0000_0000 ==>
                  Get(after.balances, a) == due && Total(after.balances) == Total(book.balances) - fee)
  {
    hide Apply;
    hide Get;
    hide Total;
    hide Paid;
    hide PaidTo;
    hide Congruent;
    hide PostTransaction;
    PostedIs(env, n, outputs, fee, pubkey);
    var tx := PostTransaction(env, n, outputs, fee, pubkey).value.1;
    ApplyMoves(env, book, tx, a);
    ApplyConserves(env, book, tx);
  }

  // ---------------------------------------------------------------- on its way

  /** Posting puts one delivery in flight to every registered client, the sender included, and at a miner one call
      of its own; nothing else. */
  lemma PostingSends(env: Env, w: World, s: Net, e: Event, x: Msg)
    requires e.Spend? && Enabled(env, w, s, e)
    ensures var n := s.nodes[e.at];
            var tx := PostTransaction(env, n, e.outputs, e.fee, e.pubkey).value.1;
            Perform(env, w, s, e).msgs[x] == s.msgs[x]
              + (if x.to in s.nodes && x.payload == PostTx(tx) then 1 else 0)
              + (if n.config.miner && x == Msg(n.address, Queue(tx)) then 1 else 0)
  {
    hide AvailableGold;
    hide TotalOutput;
    hide Sound;
    assert x == Msg(x.to, x.payload);
  }

  /** A delivered transaction joins the pool of a miner that has started, and a miner's own joins it in any case;
      a client, and a miner that has not started, ignore it. */
  lemma DeliveryPools(env: Env, w: World, s: Net, e: Event)
    requires e.DeliverTx? && Enabled(env, w, s, e)
    ensures var m, t := e.msg, Perform(env, w, s, e);
            var n := s.nodes[m.to];
            && t.nodes == s.nodes[m.to := n.(pool := if n.current.Some? || m.payload.Queue? then n.pool + {m.payload.tx} else n.pool)]
            && t.msgs == s.msgs - multiset{m}
  {
  }

  /** The event delivers the message. */
  predicate Delivers(e: Event, m: Msg) {
    match e
    case DeliverBlock(x, _, _) => x == m
    case DeliverRequest(x) => x == m
    case DeliverTx(x) => x == m
    case _ => false
  }

  lemma OnlyDeliveryTakes(env: Env, w: World, s: Net, e: Event, m: Msg)
    requires Enabled(env, w, s, e) && m in s.msgs && !Delivers(e, m)
    ensures m in Perform(env, w, s, e).msgs
  {
    hide MinerReceive;
    hide SentOnReceipt;
    hide FindProof;
    hide PostTransaction;
    hide StartNewSearch;
    hide Announcement;
    hide Posting;
    hide OrderFits;
    hide Sound;
  }

  /** Whatever is in flight stays so until it is delivered. */
  lemma {:induction false} StaysInFlight(env: Env, w: World, ss: seq<Net>, es: seq<Event>, i: nat, j: nat, m: Msg)
    requires NetRun(env, w, ss, es) && i <= j < |ss| && m in ss[i].msgs
    requires forall t :: i <= t < j ==> !Delivers(es[t], m)
    ensures m in ss[j].msgs
    decreases j
  {
    hide Perform;
    hide Enabled;
    if i < j {
      StaysInFlight(env, w, ss, es, i, j - 1, m);
      assert Enabled(env, w, ss[j - 1], es[j - 1]) && ss[j] == Perform(env, w, ss[j - 1], es[j - 1]);
      OnlyDeliveryTakes(env, w, ss[j - 1], es[j - 1], m);
    }
  }

  /** In every run: a posted transaction is in flight to every node then registered until it is delivered there,
      and if that node is a started miner by then, its pool has it. */
  lemma PostedReachesMiners(env: Env, w: World, ss: seq<Net>, es: seq<Event>, i: nat, j: nat, a: Address)
    requires NetRun(env, w, ss, es) && i < j < |ss| && es[i].Spend? && a in ss[i].nodes
    ensures es[i].at in ss[i].nodes
    ensures PostTransaction(env, ss[i].nodes[es[i].at], es[i].outputs, es[i].fee, es[i].pubkey).Some?
    ensures var tx := PostTransaction(env, ss[i].nodes[es[i].at], es[i].outputs, es[i].fee, es[i].pubkey).value.1;
            var m := Msg(a, PostTx(tx));
            && ((forall t :: i < t < j ==> es[t] != DeliverTx(m)) ==> m in ss[j].msgs)
            && (j < |es| && es[j] == DeliverTx(m) ==>
                  && a in ss[j].nodes && a in ss[j + 1].nodes
                  && (ss[j].nodes[a].current.Some? ==> tx in ss[j + 1].nodes[a].pool))
  {
    hide Perform;
    hide Enabled;
    hide PostTransaction;
    assert Enabled(env, w, ss[i], es[i]) && ss[i + 1] == Perform(env, w, ss[i], es[i]);
    SpendIsEnabled(env, w, ss[i], es[i]);
    var tx := PostTransaction(env, ss[i].nodes[es[i].at], es[i].outputs, es[i].fee, es[i].pubkey).value.1;
    var m := Msg(a, PostTx(tx));
    PostingSends(env, w, ss[i], es[i], m);
    if forall t :: i < t < j ==> es[t] != DeliverTx(m) {
      forall t | i + 1 <= t < j ensures !Delivers(es[t], m) {
        assert Enabled(env, w, ss[t], es[t]);
        TxIsDeliveredAsTx(env, w, ss[t], es[t], m);
      }
      StaysInFlight(env, w, ss, es, i + 1, j, m);
    }
    if j < |es| && es[j] == DeliverTx(m) {
      assert Enabled(env, w, ss[j], es[j]) && ss[j + 1] == Perform(env, w, ss[j], es[j]);
      TxHasNode(env, w, ss[j], es[j]);
      DeliveryPools(env, w, ss[j], es[j]);
    }
  }

  lemma SpendIsEnabled(env: Env, w: World, s: Net, e: Event)
    requires e.Spend? && Enabled(env, w, s, e)
    ensures e.at in s.nodes && PostTransaction(env, s.nodes[e.at], e.outputs, e.fee, e.pubkey).Some?
  {
  }

  lemma TxHasNode(env: Env, w: World, s: Net, e: Event)
    requires e.DeliverTx? && Enabled(env, w, s, e)
    ensures e.msg.to in s.nodes
  {
  }

  lemma TxIsDeliveredAsTx(env: Env, w: World, s: Net, e: Event, m: Msg)
    requires Enabled(env, w, s, e) && m.payload.PostTx?
    ensures Delivers(e, m) ==> e == DeliverTx(m)
  {
    hide OrderFits;
  }

  // ---------------------------------------------------------------- offered to a block

  /** The event starts a new search at the node, offering these transactions in order. */
  ghost predicate Offers(env: Env, s: Net, e: Event, a: Address, order: seq<Transaction>) {
    match e
    case Begin(at, o, _) => at == a && o == order
    case DeliverBlock(m, o, _) =>
      && m.to == a && o == order && a in s.nodes && m.payload.ProofFound?
      && var (x, r) := Receive(env, s.nodes[a], m.payload.block); r.Stored? && CutsOver(x, r.block)
    case _ => false
  }

  /** Receiving a block takes a transaction out of the pool only by offering it. */
  lemma BlockOffersPool(env: Env, n: NodeVal, b: BlockVal, order: seq<Transaction>, now: int, tx: Transaction)
    requires OrderFits(env, n, b, order) && tx in n.pool
    ensures var (x, r) := Receive(env, n, b);
            tx in MinerReceive(env, n, b, order, now).0.pool || (r.Stored? && CutsOver(x, r.block) && tx in order)
  {
    hide Receive;
    hide SyncTransaction;
    hide Assemble;
    ReceiveKeepsPool(env, n, b);
  }

  lemma ReceiveKeepsPool(env: Env, n: NodeVal, b: BlockVal)
    ensures Receive(env, n, b).0.pool == n.pool && Receive(env, n, b).0.current == n.current
  {
    hide Rerun;
    hide ConfirmedOf;
    hide HashOf;
    hide HasValidProof;
    hide Contains;
  }

  /** A transaction leaves a pool only when it is offered to a new block. */
  lemma LeavesPoolOffered(env: Env, w: World, s: Net, e: Event, a: Address, tx: Transaction)
    requires Enabled(env, w, s, e) && a in s.nodes && tx in s.nodes[a].pool
    ensures var t := Perform(env, w, s, e);
            && a in t.nodes
            && (tx in t.nodes[a].pool || exists order :: Offers(env, s, e, a, order) && tx in order)
  {
    hide MinerReceive;
    hide Receive;
    hide OrderFits;
    hide SyncTransaction;
    hide SentOnReceipt;
    hide FindProof;
    hide Assemble;
    hide AvailableGold;
    hide TotalOutput;
    hide Announcement;
    hide Posting;
    match e
    case DeliverBlock(m, order, now) =>
      if m.to == a {
        BlockOffersPool(env, s.nodes[a], m.payload.block, order, now, tx);
        if tx in order && !(tx in MinerReceive(env, s.nodes[a], m.payload.block, order, now).0.pool) {
          assert Offers(env, s, e, a, order);
        }
      }
    case Begin(at, order, now) =>
      if at == a { assert Offers(env, s, e, a, order) && tx in order; }
    case Mine(at, rounds) => if at == a { SearchKeepsPool(env, s.nodes[a], rounds); }
    case _ =>
  }

  lemma SearchKeepsPool(env: Env, n: NodeVal, rounds: u32)
    requires n.current.Some?
    ensures FindProof(env, n, rounds).0.pool == n.pool
  {
    hide Scan;
  }

  /** On a cut-over a miner of an honest run offers its new block exactly its pool and what the abandoned branch
      has above the fork point and the new one lacks there; it fills the block with what it takes of that, and
      is left with an empty pool. */
  lemma CutOverOffers(env: Env, w: World, n: NodeVal, b: BlockVal, order: seq<Transaction>, now: int)
    requires Lawful(env, w) && MinerInv(env, w, n) && n.current.Some? && Genuine(env, w, b) && OrderFits(env, n, b, order)
    requires Receive(env, n, b).1.Stored? && Receive(env, n, b).0.last != n.last
    ensures var x, m := Receive(env, n, b).0, MinerReceive(env, n, b, order, now).0;
            var c, d := Ancestry(x.blocks, n.current.value), Ancestry(x.blocks, x.last);
            var k := Meet(env, c, d);
            && (forall tx :: tx in order <==> tx in n.pool || (OnBranch(c[k..], tx) && !OnBranch(d[k..], tx)))
            && (forall i, j :: 0 <= i < j < |order| ==> order[i] != order[j])
            && m.pool == {} && m.current.Some?
            && Assemble(env, Book([], x.last.book.balances, x.last.book.nonces), order) == Some(m.current.value.book)
  {
    hide Receive;
    hide Genuine;
    hide HonestNode;
    hide WorksOn;
    hide HashOf;
    hide Sound;
    hide SyncTransaction;
    hide Ancestry;
    hide Meet;
    hide BranchTxs;
    hide OnBranch;
    hide Assemble;
    hide Lawful;
    var (x, r) := Receive(env, n, b);
    ReceiveKeepsPool(env, n, b);
    TipMovesByOne(env, w, n, b);
    HonestReceive(env, w, n, b);
    MinesOnTip(env, w, n, b, order, now);
    KeepsBlocks(env, w, n, b);
    LastIsGood(env, w, x);
    HonestSyncs(env, w, n, x, x.last);
    var c, d := Ancestry(x.blocks, n.current.value), Ancestry(x.blocks, x.last);
    var k := Meet(env, c, d);
    forall tx ensures tx in Abandoned(env, c, d) <==> OnBranch(c[k..], tx) && !OnBranch(d[k..], tx) {
      BranchTxsAre(c[k..], tx);
      BranchTxsAre(d[k..], tx);
    }
    hide Abandoned;
  }

  lemma KeepsBlocks(env: Env, w: World, n: NodeVal, b: BlockVal)
    requires Lawful(env, w) && HonestNode(env, w, n)
    ensures Extends(n.blocks, Receive(env, n, b).0.blocks)
  {
    hide Receive;
    hide NodeInv;
    hide Good;
    hide Genuine;
    IdealOf(env, w);
    ReceiveKeepsInv(env, n, b);
  }
}
