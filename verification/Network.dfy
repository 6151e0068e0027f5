/** Several nodes over a network that delivers in any order. */
module Network {
  import opened Prelude
  import opened Ledger
  import opened Chains
  import opened Store
  import opened Honest
  import opened Mining
  import opened Forks
  import opened Wallet

  /** PROOF_FOUND with a block, MISSING_BLOCK with the asker's address and a hash, POST_TRANSACTION, and a
      miner's own call that queues the transaction it posted. */
  datatype Payload =
    | ProofFound(block: BlockVal)
    | MissingBlock(asker: Address, hash: Hash)
    | PostTx(tx: Transaction)
    | Queue(tx: Transaction)

  /** A message in flight, or a handler call spawned on its own goroutine. */
  datatype Msg = Msg(to: Address, payload: Payload)

  datatype Net = Net(nodes: map<Address, NodeVal>, msgs: multiset<Msg>)

  function ToAll(all: set<Address>, p: Payload): multiset<Msg> {
    multiset(set a | a in all :: Msg(a, p))
  }

  function Calls(at: Address, freed: map<Hash, BlockVal>): multiset<Msg> {
    multiset(set f | f in freed.Values :: Msg(at, ProofFound(f)))
  }

  /** What ReceiveBlock sends: one call per freed block, or a request to everybody. */
  function SentOnReceipt(all: set<Address>, at: Address, b: BlockVal, r: Receipt): multiset<Msg> {
    match r
    case Stored(_, freed) => Calls(at, freed)
    case Parked(asked) => if asked then ToAll(all, MissingBlock(at, b.meta.prev)) else multiset{}
    case _ => multiset{}
  }

  /** A found proof goes to everybody, and to the miner's own ReceiveBlock. */
  function Announcement(all: set<Address>, at: Address, b: BlockVal): multiset<Msg> {
    ToAll(all, ProofFound(b)) + multiset{Msg(at, ProofFound(b))}
  }

  /** A posted transaction goes to everybody; a miner, started or not, also queues it. */
  function Posting(all: set<Address>, n: NodeVal, tx: Transaction): multiset<Msg> {
    ToAll(all, PostTx(tx)) + if n.config.miner then multiset{Msg(n.address, Queue(tx))} else multiset{}
  }

  datatype Event =
    | DeliverBlock(msg: Msg, order: seq<Transaction>, now: int)
    | DeliverRequest(msg: Msg)
    | DeliverTx(msg: Msg)
    | Mine(at: Address, rounds: u32)
    | Spend(at: Address, outputs: seq<Output>, fee: u32, pubkey: string)
    | Begin(at: Address, order: seq<Transaction>, now: int)
    | Join(node: NodeVal)

  /** One call of FindProof, and whether it announces. */
  function FindProof(env: Env, n: NodeVal, rounds: u32): (NodeVal, bool)
    requires n.current.Some?
  {
    var c := n.current.value;
    var pause := Wrap(c.meta.proof + rounds);
    var q := Scan(env, c, c.meta.proof, pause);
    (n.(current := Some(WithProof(c, q))), q < pause)
  }

  /** The event can happen: its message is in flight, its node exists, its block is within the horizon,
      its transaction is sound, the pool is enumerated in some order. */
  ghost predicate Enabled(env: Env, w: World, s: Net, e: Event) {
    match e
    case DeliverBlock(m, order, _) =>
      m in s.msgs && m.payload.ProofFound? && m.to in s.nodes && OrderFits(env, s.nodes[m.to], m.payload.block, order)
    case DeliverRequest(m) => m in s.msgs && m.payload.MissingBlock? && m.to in s.nodes
    case DeliverTx(m) => m in s.msgs && (m.payload.PostTx? || m.payload.Queue?) && m.to in s.nodes
    case Mine(at, _) =>
      at in s.nodes && s.nodes[at].current.Some? && s.nodes[at].current.value.meta.height <= w.horizon
    case Spend(at, outputs, fee, pubkey) =>
      at in s.nodes && PostTransaction(env, s.nodes[at], outputs, fee, pubkey).Some?
      && Sound(w.genesis.book.balances, PostTransaction(env, s.nodes[at], outputs, fee, pubkey).value.1)
    case Begin(at, order, _) =>
      at in s.nodes && s.nodes[at].config.miner && s.nodes[at].current.None? && Listing(order, s.nodes[at].pool)
    case Join(n) =>
      n.address !in s.nodes && n.config.coinbase == w.coinbase
      && n == Fresh(env, n.address, n.key, n.config, w.genesis)
  }

  /** Before Initialize nobody handles POST_TRANSACTION; a miner's own call needs no handler. */
  predicate Listens(n: NodeVal, p: Payload) {
    p.Queue? || n.current.Some?
  }

  ghost function Perform(env: Env, w: World, s: Net, e: Event): Net
    requires Enabled(env, w, s, e)
  {
    match e
    case DeliverBlock(m, order, now) =>
      var (n, r) := MinerReceive(env, s.nodes[m.to], m.payload.block, order, now);
      Net(s.nodes[m.to := n], s.msgs - multiset{m} + SentOnReceipt(s.nodes.Keys, m.to, m.payload.block, r))
    case DeliverRequest(m) =>
      var blocks := s.nodes[m.to].blocks;
      s.(msgs := s.msgs - multiset{m}
                 + if m.payload.hash in blocks then multiset{Msg(m.payload.asker, ProofFound(blocks[m.payload.hash]))}
                   else multiset{})
    case DeliverTx(m) =>
      var n := s.nodes[m.to];
      Net(s.nodes[m.to := if Listens(n, m.payload) then n.(pool := n.pool + {m.payload.tx}) else n], s.msgs - multiset{m})
    case Mine(at, rounds) =>
      var (n, found) := FindProof(env, s.nodes[at], rounds);
      Net(s.nodes[at := n],
          s.msgs + if found then Announcement(s.nodes.Keys, at, n.current.value) else multiset{})
    case Spend(at, outputs, fee, pubkey) =>
      var (n, tx) := PostTransaction(env, s.nodes[at], outputs, fee, pubkey).value;
      Net(s.nodes[at := n],
          s.msgs + Posting(s.nodes.Keys, n, tx))
    case Begin(at, order, now) =>
      var started := StartNewSearch(env, s.nodes[at], order, now);
      if started.Some? then s.(nodes := s.nodes[at := started.value]) else s
    case Join(n) => s.(nodes := s.nodes[n.address := n])
  }

  // ---------------------------------------------------------------- the network invariant

  ghost predicate MsgOk(env: Env, w: World, all: set<Address>, m: Msg) {
    && m.to in all
    && match m.payload
       case ProofFound(b) => Genuine(env, w, b)
       case MissingBlock(asker, _) => asker in all
       case PostTx(tx) => Sound(w.genesis.book.balances, tx)
       case Queue(tx) => Sound(w.genesis.book.balances, tx)
  }

  ghost predicate NodeOk(env: Env, w: World, a: Address, n: NodeVal) {
    MinerInv(env, w, n) && n.address == a
  }

  /** Every node is an honest miner or client working on its own tip, every block in flight is honest,
      every request and block is addressed to a registered node. */
  ghost predicate NetInv(env: Env, w: World, s: Net) {
    && (forall a :: a in s.nodes ==> NodeOk(env, w, a, s.nodes[a]))
    && (forall m :: m in s.msgs ==> MsgOk(env, w, s.nodes.Keys, m))
  }

  lemma UpdateKeeps(env: Env, w: World, s: Net, at: Address, n: NodeVal, msgs: multiset<Msg>)
    requires NetInv(env, w, s) && NodeOk(env, w, at, n)
    requires forall m :: m in msgs ==> m in s.msgs || MsgOk(env, w, s.nodes.Keys + {at}, m)
    ensures NetInv(env, w, Net(s.nodes[at := n], msgs))
  {
    hide NodeOk;
    hide Genuine;
    hide Sound;
    assert s.nodes[at := n].Keys == s.nodes.Keys + {at};
    forall m | m in msgs ensures MsgOk(env, w, s.nodes[at := n].Keys, m) {
      if m in s.msgs { assert MsgOk(env, w, s.nodes.Keys, m); }
    }
  }

  lemma ReceiptMsgsOk(env: Env, w: World, all: set<Address>, at: Address, b: BlockVal, r: Receipt, m: Msg)
    requires at in all && m in SentOnReceipt(all, at, b, r)
    requires r.Stored? ==> forall id :: id in r.freed ==> Genuine(env, w, r.freed[id])
    ensures MsgOk(env, w, all, m)
  {
    hide Genuine;
    hide Sound;
  }

  lemma MinerReceiptIs(env: Env, n: NodeVal, b: BlockVal, order: seq<Transaction>, now: int)
    ensures var r := MinerReceive(env, n, b, order, now).1; r == Receive(env, n, b).1 || r == Crashed
  {
    hide Receive;
    hide StartNewSearch;
    hide CutsOver;
  }

  lemma DeliverAtNode(env: Env, w: World, n: NodeVal, b: BlockVal, order: seq<Transaction>, now: int)
    requires Lawful(env, w) && MinerInv(env, w, n) && Genuine(env, w, b) && OrderFits(env, n, b, order)
    ensures var (m, r) := MinerReceive(env, n, b, order, now);
            && MinerInv(env, w, m) && m.address == n.address
            && r == Receive(env, n, b).1 && !r.Crashed?
            && (r.Stored? ==> HashOf(env, r.block) == HashOf(env, b)
                              && forall id :: id in r.freed ==> Genuine(env, w, r.freed[id]))
  {
    hide MinerReceive;
    hide MinerInv;
    hide HonestNode;
    hide Lawful;
    hide Genuine;
    hide Receive;
    hide OrderFits;
    hide CutsOver;
    MinesOnTip(env, w, n, b, order, now);
    MinerIsHonest(env, w, n);
    HonestReceive(env, w, n, b);
    MinerReceiptIs(env, n, b, order, now);
    MinerReceiveKeepsAddress(env, n, b, order, now);
    hide HashOf;
  }

  lemma DeliverBlockKeeps(env: Env, w: World, s: Net, e: Event)
    requires Lawful(env, w) && NetInv(env, w, s) && e.DeliverBlock? && Enabled(env, w, s, e)
    ensures NetInv(env, w, Perform(env, w, s, e))
  {
    hide Lawful;
    hide MinerInv;
    hide Genuine;
    hide MinerReceive;
    hide OrderFits;
    hide HashOf;
    var m := e.msg;
    assert MsgOk(env, w, s.nodes.Keys, m) && NodeOk(env, w, m.to, s.nodes[m.to]);
    var n := s.nodes[m.to];
    DeliverAtNode(env, w, n, m.payload.block, e.order, e.now);
    var (n', r) := MinerReceive(env, n, m.payload.block, e.order, e.now);
    var sent := SentOnReceipt(s.nodes.Keys, m.to, m.payload.block, r);
    var msgs := s.msgs - multiset{m} + sent;
    assert Perform(env, w, s, e) == Net(s.nodes[m.to := n'], msgs);
    assert NodeOk(env, w, m.to, n');
    hide Perform;
    hide NetInv;
    hide NodeOk;
    assert s.nodes.Keys + {m.to} == s.nodes.Keys;
    forall x | x in msgs ensures x in s.msgs || MsgOk(env, w, s.nodes.Keys + {m.to}, x) {
      if x !in s.msgs {
        assert x in sent;
        ReceiptMsgsOk(env, w, s.nodes.Keys, m.to, m.payload.block, r, x);
      }
    }
    hide MsgOk;
    UpdateKeeps(env, w, s, m.to, n', msgs);
  }

  lemma MinerReceiveKeepsAddress(env: Env, n: NodeVal, b: BlockVal, order: seq<Transaction>, now: int)
    ensures MinerReceive(env, n, b, order, now).0.address == n.address
  {
    hide Rerun;
    hide Assemble;
    hide ConfirmedOf;
    hide HashOf;
    hide HasValidProof;
    hide SyncTransaction;
    hide Contains;
  }

  lemma MinerIsHonest(env: Env, w: World, n: NodeVal)
    requires MinerInv(env, w, n)
    ensures HonestNode(env, w, n)
  {
  }

  lemma StoredIsGenuine(env: Env, w: World, n: NodeVal, h: Hash)
    requires MinerInv(env, w, n) && h in n.blocks
    ensures Genuine(env, w, n.blocks[h])
  {
    hide Good;
    hide NodeInv;
    GoodIsGenuine(env, w, n.blocks[h]);
  }

  lemma DeliverRequestKeeps(env: Env, w: World, s: Net, e: Event)
    requires NetInv(env, w, s) && e.DeliverRequest? && Enabled(env, w, s, e)
    ensures NetInv(env, w, Perform(env, w, s, e))
  {
    hide MinerInv;
    hide Genuine;
    var m := e.msg;
    assert MsgOk(env, w, s.nodes.Keys, m) && NodeOk(env, w, m.to, s.nodes[m.to]);
    var blocks := s.nodes[m.to].blocks;
    if m.payload.hash in blocks { StoredIsGenuine(env, w, s.nodes[m.to], m.payload.hash); }
    hide NodeOk;
    var after := Perform(env, w, s, e);
    forall x | x in after.msgs ensures MsgOk(env, w, s.nodes.Keys, x) {
      if x !in s.msgs { assert x == Msg(m.payload.asker, ProofFound(blocks[m.payload.hash])); }
    }
  }

  lemma DeliverTxKeeps(env: Env, w: World, s: Net, e: Event)
    requires NetInv(env, w, s) && e.DeliverTx? && Enabled(env, w, s, e)
    ensures NetInv(env, w, Perform(env, w, s, e))
  {
    hide HonestNode;
    hide WorksOn;
    hide Genuine;
    hide Sound;
    var m := e.msg;
    var n := s.nodes[m.to];
    assert MsgOk(env, w, s.nodes.Keys, m) && NodeOk(env, w, m.to, n);
    var n' := n.(pool := n.pool + {m.payload.tx});
    SameTree(env, w, n, n') by { MinerIsHonest(env, w, n); }
    assert NodeOk(env, w, m.to, n');
    hide NodeOk;
    UpdateKeeps(env, w, s, m.to, if Listens(n, m.payload) then n' else n, s.msgs - multiset{m});
  }

  lemma FindProofKeeps(env: Env, w: World, n: NodeVal, rounds: u32)
    requires Lawful(env, w) && MinerInv(env, w, n) && n.current.Some? && n.current.value.meta.height <= w.horizon
    ensures var (m, found) := FindProof(env, n, rounds);
            && MinerInv(env, w, m) && m.current.Some? && m.address == n.address
            && (found ==> Genuine(env, w, m.current.value))
  {
    hide HonestNode;
    hide Announceable;
    hide Sound;
    var (m, found) := FindProof(env, n, rounds);
    SameTree(env, w, n, m);
    hide Scan;
    assert WorksOn(env, w, n.last, m.current.value);
    if found {
      LastIsGood(env, w, n);
      hide Lawful;
      hide Good;
      ProvedIsGenuine(env, w, n.last, m.current.value);
    }
  }

  lemma MineKeeps(env: Env, w: World, s: Net, e: Event)
    requires Lawful(env, w) && NetInv(env, w, s) && e.Mine? && Enabled(env, w, s, e)
    ensures NetInv(env, w, Perform(env, w, s, e))
  {
    hide Lawful;
    hide MinerInv;
    hide Genuine;
    hide FindProof;
    var n := s.nodes[e.at];
    assert NodeOk(env, w, e.at, n);
    FindProofKeeps(env, w, n, e.rounds);
    var (m, found) := FindProof(env, n, e.rounds);
    var after := Perform(env, w, s, e);
    forall x | x in after.msgs ensures x in s.msgs || MsgOk(env, w, s.nodes.Keys + {e.at}, x) {
      if x !in s.msgs { assert x.payload == ProofFound(m.current.value) && x.to in s.nodes; }
    }
    UpdateKeeps(env, w, s, e.at, m, after.msgs);
  }

  lemma SpendKeeps(env: Env, w: World, s: Net, e: Event)
    requires NetInv(env, w, s) && e.Spend? && Enabled(env, w, s, e)
    ensures NetInv(env, w, Perform(env, w, s, e))
  {
    hide HonestNode;
    hide WorksOn;
    hide Genuine;
    hide AvailableGold;
    var n := s.nodes[e.at];
    assert NodeOk(env, w, e.at, n);
    var (m, tx) := PostTransaction(env, n, e.outputs, e.fee, e.pubkey).value;
    assert Sound(w.genesis.book.balances, tx);
    hide Paid;
    hide Sound;
    SameTree(env, w, n, m) by { MinerIsHonest(env, w, n); }
    assert NodeOk(env, w, e.at, m);
    hide NodeOk;
    var after := Perform(env, w, s, e);
    forall x | x in after.msgs ensures x in s.msgs || MsgOk(env, w, s.nodes.Keys + {e.at}, x) {
      if x !in s.msgs { assert (x.payload == PostTx(tx) || x.payload == Queue(tx)) && x.to in s.nodes; }
    }
    UpdateKeeps(env, w, s, e.at, m, after.msgs);
  }

  lemma BeginKeeps(env: Env, w: World, s: Net, e: Event)
    requires Lawful(env, w) && NetInv(env, w, s) && e.Begin? && Enabled(env, w, s, e)
    ensures NetInv(env, w, Perform(env, w, s, e))
  {
    hide Lawful;
    hide HonestNode;
    hide WorksOn;
    hide Genuine;
    hide Sound;
    var n := s.nodes[e.at];
    assert NodeOk(env, w, e.at, n);
    NewSearchWorksOnTip(env, w, n, e.order, e.now);
    var m := StartNewSearch(env, n, e.order, e.now).value;
    assert m.address == n.address;
    hide StartNewSearch;
    hide MinerInv;
    UpdateKeeps(env, w, s, e.at, m, s.msgs);
  }

  lemma JoinKeeps(env: Env, w: World, s: Net, e: Event)
    requires Lawful(env, w) && NetInv(env, w, s) && e.Join? && Enabled(env, w, s, e)
    ensures NetInv(env, w, Perform(env, w, s, e))
  {
    hide Genuine;
    hide Sound;
    hide HonestNode;
    var n := e.node;
    FreshIsHonest(env, w, n.address, n.key, n.config);
    assert NodeOk(env, w, n.address, n);
    hide NodeOk;
    UpdateKeeps(env, w, s, n.address, n, s.msgs);
  }

  /** Every event of an honest network keeps it honest. */
  lemma StepKeepsNet(env: Env, w: World, s: Net, e: Event)
    requires Lawful(env, w) && NetInv(env, w, s) && Enabled(env, w, s, e)
    ensures NetInv(env, w, Perform(env, w, s, e))
  {
    hide Perform;
    hide Lawful;
    hide NetInv;
    hide Enabled;
    match e
    case DeliverBlock(_, _, _) => DeliverBlockKeeps(env, w, s, e);
    case DeliverRequest(_) => DeliverRequestKeeps(env, w, s, e);
    case DeliverTx(_) => DeliverTxKeeps(env, w, s, e);
    case Mine(_, _) => MineKeeps(env, w, s, e);
    case Spend(_, _, _, _) => SpendKeeps(env, w, s, e);
    case Begin(_, _, _) => BeginKeeps(env, w, s, e);
    case Join(_) => JoinKeeps(env, w, s, e);
  }

  ghost predicate NetRun(env: Env, w: World, ss: seq<Net>, es: seq<Event>) {
    && |ss| == |es| + 1
    && ss[0] == Net(map[], multiset{})
    && forall i :: 0 <= i < |es| ==> Enabled(env, w, ss[i], es[i]) && ss[i + 1] == Perform(env, w, ss[i], es[i])
  }

  lemma {:induction false} RunKeepsNet(env: Env, w: World, ss: seq<Net>, es: seq<Event>, i: nat)
    requires Lawful(env, w) && NetRun(env, w, ss, es) && i < |ss|
    ensures NetInv(env, w, ss[i])
  {
    hide Perform;
    hide Lawful;
    hide Enabled;
    if i > 0 {
      RunKeepsNet(env, w, ss, es, i - 1);
      hide NetInv;
      assert Enabled(env, w, ss[i - 1], es[i - 1]) && ss[i] == Perform(env, w, ss[i - 1], es[i - 1]);
      StepKeepsNet(env, w, ss[i - 1], es[i - 1]);
    }
  }

  /** Agreement: in every state of every run, nodes that store the same hash store the same block, with
      the same ledger, whatever ledgers the messages carried. */
  lemma NetworkAgrees(env: Env, w: World, ss: seq<Net>, es: seq<Event>, i: nat, a: Address, b: Address, h: Hash)
    requires Lawful(env, w) && NetRun(env, w, ss, es) && i < |ss|
    requires a in ss[i].nodes && b in ss[i].nodes && h in ss[i].nodes[a].blocks && h in ss[i].nodes[b].blocks
    ensures ss[i].nodes[a].blocks[h] == ss[i].nodes[b].blocks[h]
  {
    hide NetRun;
    hide Good;
    hide WorksOn;
    RunKeepsNet(env, w, ss, es, i);
    IdealOf(env, w);
    hide Lawful;
    var m, n := ss[i].nodes[a], ss[i].nodes[b];
    assert NodeOk(env, w, a, m) && NodeOk(env, w, b, n);
    hide NetInv;
    KeyIsHash(env, m, h);
    KeyIsHash(env, n, h);
    hide NodeInv;
    GoodUnique(env, w, m.blocks[h], n.blocks[h]);
  }

  /** In every state of every run: a block in flight is never refused by a node that stores its parent,
      no delivery panics a node, and every miner works on top of its tip. */
  lemma NetworkAccepts(env: Env, w: World, ss: seq<Net>, es: seq<Event>, i: nat, m: Msg, order: seq<Transaction>, now: int)
    requires Lawful(env, w) && NetRun(env, w, ss, es) && i < |ss|
    requires m in ss[i].msgs && m.payload.ProofFound? && m.to in ss[i].nodes
    requires OrderFits(env, ss[i].nodes[m.to], m.payload.block, order)
    ensures var n := ss[i].nodes[m.to];
            var r := MinerReceive(env, n, m.payload.block, order, now).1;
            && !r.Crashed?
            && (r.Dropped? <==> HashOf(env, m.payload.block) in n.blocks)
            && (r.Stored? <==> HashOf(env, m.payload.block) !in n.blocks && m.payload.block.meta.prev in n.blocks)
            && (r.Stored? ==> HashOf(env, r.block) == HashOf(env, m.payload.block))
            && (n.current.Some? ==> n.current.value.meta.prev == HashOf(env, n.last)
                                    && n.current.value.meta.height == n.last.meta.height + 1)
  {
    hide NetRun;
    hide Genuine;
    hide Lawful;
    hide MinerReceive;
    hide OrderFits;
    hide MinerInv;
    hide HashOf;
    RunKeepsNet(env, w, ss, es, i);
    var n := ss[i].nodes[m.to];
    assert MsgOk(env, w, ss[i].nodes.Keys, m) && NodeOk(env, w, m.to, n);
    hide NetInv;
    DeliverAtNode(env, w, n, m.payload.block, order, now);
    MinerIsHonest(env, w, n);
    ReceiptKinds(env, w, n, m.payload.block);
    if n.current.Some? { MinerCurrent(env, w, n); }
    hide Receive;
  }

  lemma MinerCurrent(env: Env, w: World, n: NodeVal)
    requires MinerInv(env, w, n) && n.current.Some?
    ensures n.current.value.meta.prev == HashOf(env, n.last) && n.current.value.meta.height == n.last.meta.height + 1
  {
  }

  lemma ReceiptKinds(env: Env, w: World, n: NodeVal, b: BlockVal)
    requires Lawful(env, w) && HonestNode(env, w, n) && Genuine(env, w, b)
    ensures var r := Receive(env, n, b).1;
            && (r.Dropped? <==> HashOf(env, b) in n.blocks)
            && (r.Stored? <==> HashOf(env, b) !in n.blocks && b.meta.prev in n.blocks)
  {
    hide Receive;
    hide HonestNode;
    hide Lawful;
    hide Good;
    hide GoodLink;
    hide HashOf;
    HonestReceipt(env, w, n, b);
  }
}
