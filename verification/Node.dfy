/** The node object: Client, Miner and TcpMiner share these handlers. Each runs under the node's mutex and is
    one atomic step. A client is a node whose current block is null. */
module Nodes {
  import opened Prelude
  import opened Ledger
  import opened Chains
  import opened Store
  import opened Honest
  import opened Mining
  import opened Forks
  import opened Wallet
  import opened Network
  import opened Blocks
  import opened Sets
  import opened Nets
  import opened Slices

  /** Filing b takes the node from n to m. */
  ghost predicate Keeps(env: Env, n: NodeVal, b: BlockVal, m: NodeVal, r: Receipt) {
    Keep(env, n, b) == (m, r)
  }

  /** b is neither stored nor an orphan. */
  ghost predicate Ready(env: Env, n: NodeVal, b: BlockVal) {
    && HashOf(env, b) !in n.blocks
    && (b.meta.height != 0 ==> HasValidProof(env, b) && b.meta.prev in n.blocks)
  }

  /** Receiving b amounts to filing kept. */
  ghost predicate LeadsTo(env: Env, n: NodeVal, b: BlockVal, kept: BlockVal) {
    Receive(env, n, b) == Keep(env, n, kept)
  }

  /** Storing, parking or dropping b takes the node from n to m; a crash leaves no state worth speaking of. */
  ghost predicate Accepts(env: Env, n: NodeVal, b: BlockVal, m: NodeVal, r: Receipt) {
    Receive(env, n, b).1 == r && (r.Crashed? || Receive(env, n, b).0 == m)
  }

  /** What the node does after it stored b; ok is false where it crashes. */
  ghost predicate Follows(env: Env, n: NodeVal, b: BlockVal, order: seq<Transaction>, now: int, m: NodeVal, ok: bool) {
    if !CutsOver(n, b) then ok && n == m
    else
      match SyncTransaction(env, n.blocks, n.current.value, b)
      case None => !ok
      case Some(txs) =>
        && Listing(order, n.pool + txs)
        && (ok <==> Forks.StartNewSearch(env, n, order, now).Some?)
        && (ok ==> Forks.StartNewSearch(env, n, order, now) == Some(m))
  }

  /** Receiving b takes the node from n to m, its pool being enumerated in some order. */
  ghost predicate Receives(env: Env, n: NodeVal, b: BlockVal, order: seq<Transaction>, now: int, m: NodeVal, r: Receipt) {
    && OrderFits(env, n, b, order)
    && MinerReceive(env, n, b, order, now).1 == r
    && (r.Crashed? || MinerReceive(env, n, b, order, now).0 == m)
  }

  /** Whatever the message, unless it crashes the node, the node keeps its store invariant and every block. */
  lemma ReceivesKeepsInv(env: Env, n: NodeVal, b: BlockVal, order: seq<Transaction>, now: int, m: NodeVal, r: Receipt)
    requires Ideal(env) && NodeInv(env, n) && Receives(env, n, b, order, now, m, r) && !r.Crashed?
    ensures NodeInv(env, m) && Extends(n.blocks, m.blocks)
  {
    hide Receive;
    hide TreeInv;
    hide ParkedInv;
    hide TipInv;
    hide Assemble;
    hide SyncTransaction;
    ReceiveKeepsInv(env, n, b);
  }

  /** In an honest run no block crashes a node. */
  lemma HonestNeverCrashes(env: Env, w: World, n: NodeVal, b: BlockVal, order: seq<Transaction>, now: int, m: NodeVal, r: Receipt)
    requires Lawful(env, w) && MinerInv(env, w, n) && Genuine(env, w, b) && Receives(env, n, b, order, now, m, r)
    ensures !r.Crashed? && MinerInv(env, w, m)
  {
    hide Lawful;
    hide MinerInv;
    hide Genuine;
    hide OrderFits;
    hide MinerReceive;
    MinesOnTip(env, w, n, b, order, now);
  }

  /** The set identifies transactions by their id. */
  ghost predicate KeyedById(env: Env, s: HashSet<Transaction>) {
    forall t :: s.Key(t) == IdOf(env, t)
  }

  lemma IdsDistinguish(env: Env, s: HashSet<Transaction>)
    requires Ideal(env) && KeyedById(env, s)
    ensures s.Distinguishes()
  {
    forall x, y | s.Key(x) == s.Key(y) ensures x == y {
      SameId(env, x, y);
    }
  }

  method NewTxSet(env: Env) returns (s: HashSet<Transaction>)
    ensures fresh(s) && s.Valid() && s.Elements() == {} && KeyedById(env, s)
  {
    s := new HashSet<Transaction>(t => IdOf(env, t));
  }

  method AddEntries(env: Env, s: HashSet<Transaction>, entries: Slice<TxEntry>)
    requires Ideal(env) && s.Valid() && KeyedById(env, s) && Fits(entries)
    modifies s
    ensures s.Valid() && s.Elements() == old(s.Elements()) + TxSet(Items(entries))
  {
    IdsDistinguish(env, s);
    hide KeyedById;
    hide Ideal;
    ghost var es := Items(entries);
    var i := 0;
    while i < entries.len
      invariant 0 <= i <= entries.len && Items(entries) == es
      invariant s.Valid() && s.Elements() == old(s.Elements()) + TxSet(es[..i])
    {
      s.Add(entries.arr[i].tx);
      assert TxSet(es[..i + 1]) == TxSet(es[..i]) + {es[i].tx} by {
        assert es[..i + 1] == es[..i] + [es[i]];
      }
      i := i + 1;
    }
    assert es[..i] == es;
  }

  /** Adds or removes a whole list of transactions. */
  method AddAll(env: Env, s: HashSet<Transaction>, txs: seq<Transaction>)
    requires Ideal(env) && s.Valid() && KeyedById(env, s)
    modifies s
    ensures s.Valid() && s.Elements() == old(s.Elements()) + (set t | t in txs)
  {
    IdsDistinguish(env, s);
    hide KeyedById;
    hide Ideal;
    var i := 0;
    while i < |txs|
      invariant 0 <= i <= |txs|
      invariant s.Valid() && s.Elements() == old(s.Elements()) + (set t | t in txs[..i])
    {
      s.Add(txs[i]);
      assert txs[..i + 1] == txs[..i] + [txs[i]];
      i := i + 1;
    }
    assert txs[..i] == txs;
  }

  method RemoveAll(env: Env, s: HashSet<Transaction>, txs: seq<Transaction>)
    requires Ideal(env) && s.Valid() && KeyedById(env, s)
    modifies s
    ensures s.Valid() && s.Elements() == old(s.Elements()) - (set t | t in txs)
  {
    IdsDistinguish(env, s);
    hide KeyedById;
    hide Ideal;
    var i := 0;
    while i < |txs|
      invariant 0 <= i <= |txs|
      invariant s.Valid() && s.Elements() == old(s.Elements()) - (set t | t in txs[..i])
    {
      s.Remove(txs[i]);
      assert txs[..i + 1] == txs[..i] + [txs[i]];
      i := i + 1;
    }
    assert txs[..i] == txs;
  }

  // ---------------------------------------------------------------- stored blocks and their arrays

  /** frozen holds the blocks and their backing arrays. */
  ghost predicate Covers(frozen: set<object>, stored: set<Block>)
    reads stored
  {
    forall b :: b in stored ==> b in frozen && b.Arrays() <= frozen && b.Valid()
  }

  /** No two blocks share a backing array. */
  ghost predicate Disjoint(stored: set<Block>)
    reads stored
  {
    forall a, b :: a in stored && b in stored && a != b ==> a.Arrays() !! b.Arrays()
  }

  ghost predicate Within(blocks: map<Hash, Block>, stored: set<Block>) {
    forall h :: h in blocks ==> blocks[h] in stored
  }

  ghost function TreeOf(blocks: map<Hash, Block>, stored: set<Block>, frozen: set<object>): map<Hash, BlockVal>
    requires Covers(frozen, stored) && Within(blocks, stored)
    reads stored, frozen
  {
    map h | h in blocks :: blocks[h].Val()
  }

  lemma CoversMore(frozen: set<object>, stored: set<Block>, b: Block)
    requires Covers(frozen, stored) && b.Valid()
    ensures Covers(frozen + {b} + b.Arrays(), stored + {b})
  {
  }

  lemma DisjointMore(frozen: set<object>, stored: set<Block>, b: Block)
    requires Covers(frozen, stored) && Disjoint(stored) && b.Arrays() !! frozen
    ensures Disjoint(stored + {b})
  {
    forall x, y | x in stored + {b} && y in stored + {b} && x != y ensures x.Arrays() !! y.Arrays() {
    }
  }

  lemma TreeMore(blocks: map<Hash, Block>, stored: set<Block>, frozen: set<object>, id: Hash, b: Block)
    requires Covers(frozen, stored) && Within(blocks, stored) && b.Valid()
    ensures Covers(frozen + {b} + b.Arrays(), stored + {b}) && Within(blocks[id := b], stored + {b})
    ensures TreeOf(blocks[id := b], stored + {b}, frozen + {b} + b.Arrays())
            == TreeOf(blocks, stored, frozen)[id := b.Val()]
  {
    hide Block.Val;
    CoversMore(frozen, stored, b);
    hide Covers;
  }

  class Node {
    const env: Env
    const address: Address
    const privKey: string
    const pubKey: string
    const config: Config
    const miningRounds: u32
    const net: FakeNet
    var blocks: map<Hash, Block>
    var pendingOutgoing: map<TxId, Transaction>
    var pendingBlocks: map<Hash, map<Hash, BlockVal>>
    var lastBlock: Block
    var lastConfirmedBlock: Block
    var nonce: u32
    var currentBlock: Block?
    var transactions: HashSet<Transaction>
    /** Every block object ever stored. */
    ghost var stored: set<Block>
    /** Those objects and their backing arrays: nothing may be written there. */
    ghost var frozen: set<object>

    /** The block shares nothing with the stored blocks. */
    ghost predicate Apart(b: Block)
      reads this`frozen, b
    {
      b.Valid() && b !in frozen && b.Arrays() !! frozen
    }

    ghost predicate TreeShape()
      reads this`blocks, this`stored, this`frozen, stored
    {
      Covers(frozen, stored) && Within(blocks, stored)
    }

    ghost predicate Shape()
      reads this`stored, this`frozen, this`lastBlock, this`lastConfirmedBlock, this`currentBlock,
            stored, currentBlock
    {
      && Disjoint(stored)
      && lastBlock in stored && lastConfirmedBlock in stored
      && (currentBlock != null ==> Apart(currentBlock))
    }

    ghost function Tree(): map<Hash, BlockVal>
      requires TreeShape()
      reads this`blocks, this`stored, this`frozen, stored, frozen
    {
      TreeOf(blocks, stored, frozen)
    }

    ghost function Outgoing(): set<Transaction>
      reads this`pendingOutgoing
    {
      set id | id in pendingOutgoing :: pendingOutgoing[id]
    }

    ghost function Current(): Option<BlockVal>
      reads this`currentBlock, currentBlock, if currentBlock == null then {} else currentBlock.Arrays()
    {
      if currentBlock == null then None else Some(currentBlock.Val())
    }

    ghost function State(): NodeVal
      requires TreeShape() && Shape()
      reads this, stored, frozen, currentBlock, if currentBlock == null then {} else currentBlock.Arrays(), transactions
    {
      NodeVal(address, privKey, config, Tree(), pendingBlocks, lastBlock.Val(), lastConfirmedBlock.Val(),
              Outgoing(), nonce, Current(), transactions.Elements())
    }

    ghost predicate Valid()
      reads this, stored, currentBlock, transactions
    {
      && TreeShape() && Shape() && Ideal(env)
      && this !in frozen && net !in frozen && transactions !in frozen
      && transactions.Valid() && KeyedById(env, transactions)
      && (forall id :: id in pendingOutgoing ==> IdOf(env, pendingOutgoing[id]) == id)
    }

    /** A block and its arrays are none of the node's own objects. */
    lemma Foreign(b: Block)
      ensures b !in b.Arrays()
      ensures (b as object) != this && (b as object) != net && (b as object) != transactions
      ensures this !in b.Arrays() && net !in b.Arrays() && transactions !in b.Arrays()
    {
      var x: object, y: object, z: object := b.balances.arr, b.nextNonce.arr, b.transactions.arr;
      assert x != b && y != b && z != b;
      assert x != this && x != net && x != transactions;
      assert y != this && y != net && y != transactions;
      assert z != this && z != net && z != transactions;
    }

    /** None of the node's own objects is among the arrays of the blocks at hand. */
    lemma AllForeign()
      requires Valid()
      ensures lastBlock.Valid() && lastConfirmedBlock.Valid() && (currentBlock != null ==> currentBlock.Valid())
      ensures this !in lastBlock.Arrays() && net !in lastBlock.Arrays() && transactions !in lastBlock.Arrays()
      ensures this !in lastConfirmedBlock.Arrays() && net !in lastConfirmedBlock.Arrays()
      ensures transactions !in lastConfirmedBlock.Arrays()
      ensures currentBlock != null ==>
                this !in currentBlock.Arrays() && net !in currentBlock.Arrays() && transactions !in currentBlock.Arrays()
    {
      Foreign(lastBlock);
      Foreign(lastConfirmedBlock);
      if currentBlock != null { Foreign(currentBlock); }
    }

    lemma Fields(b: Block)
      ensures b.Val().meta == Meta(b.prevBlockHash, b.target, b.proof, b.chainLength, b.timestamp, b.rewardAddr, b.coinbaseReward)
      ensures b.Val().book.txs == Items(b.transactions)
    {
    }

    /** The block being mined is none of the stored blocks. */
    lemma CurrentIsApart()
      requires Valid() && currentBlock != null
      ensures currentBlock !in stored && currentBlock !in frozen && currentBlock !in currentBlock.Arrays()
      ensures currentBlock !in lastBlock.Arrays() && currentBlock !in lastConfirmedBlock.Arrays()
      ensures currentBlock != lastBlock && currentBlock != lastConfirmedBlock
    {
      Foreign(currentBlock);
    }

    constructor (env: Env, address: Address, privKey: string, pubKey: string, config: Config, miningRounds: u32,
                 net: FakeNet, genesis: Block)
      requires Ideal(env) && genesis.Valid()
      ensures Valid() && stored == {genesis} && fresh(transactions) && this.net == net && this.env == env
      ensures State() == Fresh(env, address, privKey, config, genesis.Val())
    {
      hide Ideal;
      hide HashOf;
      hide IdOf;
      hide Block.Val;
      this.env, this.address, this.privKey, this.pubKey := env, address, privKey, pubKey;
      this.config, this.miningRounds, this.net := config, miningRounds, net;
      this.blocks := map[HashOf(env, genesis.Val()) := genesis];
      this.pendingOutgoing := map[];
      this.pendingBlocks := map[];
      this.lastBlock, this.lastConfirmedBlock := genesis, genesis;
      this.nonce := 0;
      this.currentBlock := null;
      this.transactions := new HashSet<Transaction>(t => IdOf(env, t));
      this.stored := {genesis};
      this.frozen := {genesis} + genesis.Arrays();
      new;
      assert Tree() == map[HashOf(env, genesis.Val()) := genesis.Val()];
    }

    // -------------------------------------------------------------- the confirmed block

    /** Walks down from the tip to the confirmed height and forgets what is settled there. */
    method SetLastConfirmed()
      requires Valid() && Rooted(Tree(), lastBlock.Val())
      modifies this`lastConfirmedBlock, this`pendingOutgoing
      ensures Valid()
      ensures State() == Store.SetLastConfirmed(env, old(State()))
    {
      hide Shape;
      hide TreeShape;
      hide Tree;
      hide Outgoing;
      hide Ideal;
      hide KeyedById;
      hide Block.Val;
      hide ConfirmedOf;
      hide Rooted;
      hide Ledger.Contains;
      AllForeign();
      WalkToConfirmed();
      Settle();
    }

    method WalkToConfirmed()
      requires Valid() && Rooted(Tree(), lastBlock.Val())
      modifies this`lastConfirmedBlock
      ensures Valid()
      ensures State() == old(State()).(confirmed := ConfirmedOf(old(Tree()), old(lastBlock.Val())))
    {
      hide Shape;
      hide Tree;
      hide Outgoing;
      hide Ideal;
      hide KeyedById;
      hide Block.Val;
      hide ConfirmedOf;
      hide Rooted;
      AllForeign();
      ghost var n := State();
      var block := FindConfirmed();
      assert Tree() == n.blocks && Current() == n.current;
      SetConfirmed(block);
    }

    method FindConfirmed() returns (block: Block)
      requires Valid() && Rooted(Tree(), lastBlock.Val())
      ensures block in stored && block.Val() == ConfirmedOf(State().blocks, State().last)
    {
      hide Ideal;
      hide KeyedById;
      hide Disjoint;
      block := lastBlock;
      var confirmedHeight: u32 := 0;
      if block.chainLength > CONFIRMED_DEPTH {
        confirmedHeight := block.chainLength - CONFIRMED_DEPTH;
      }
      ghost var ch := Ancestry(Tree(), lastBlock.Val());
      ghost var k := |ch|;
      assert ch[..k] == ch;
      while block.chainLength > confirmedHeight
        invariant 1 <= k <= |ch| && block in stored && block.Val() == ch[k - 1]
        invariant Descend(ch[..k], confirmedHeight) == Descend(ch, confirmedHeight)
        decreases k
      {
        assert k > 1;
        assert ch[k - 1].meta.prev in Tree();
        assert ch[..k][..k - 1] == ch[..k - 1];
        block := blocks[block.prevBlockHash];
        k := k - 1;
      }
    }

    method SetConfirmed(block: Block)
      requires Valid() && block in stored
      modifies this`lastConfirmedBlock
      ensures Valid() && State() == old(State()).(confirmed := block.Val())
    {
      hide Tree;
      hide TreeShape;
      hide Disjoint;
      hide Outgoing;
      hide Ideal;
      hide KeyedById;
      hide Block.Val;
      AllForeign();
      Foreign(block);
      AllForeign();
      Foreign(block);
      lastConfirmedBlock := block;
    }

    /** Drops the pending transactions that the confirmed block contains. */
    method Settle()
      requires Valid()
      modifies this`pendingOutgoing
      ensures Valid()
      ensures State() == old(State()).(outgoing := set t | t in old(State()).outgoing
                                                             && !Ledger.Contains(env, old(State()).confirmed.book.txs, t))
    {
      hide Ledger.Contains;
      hide Shape;
      hide TreeShape;
      hide Tree;
      hide Outgoing;
      hide Ideal;
      hide KeyedById;
      hide Block.Val;
      AllForeign();
      AllForeign();
      AllForeign();
      DeleteSettled();
    }

    /** Deletes while it iterates. */
    method DeleteSettled()
      requires lastConfirmedBlock.Valid()
      modifies this`pendingOutgoing
      ensures forall id :: id in pendingOutgoing ==> id in old(pendingOutgoing) && pendingOutgoing[id] == old(pendingOutgoing)[id]
      ensures Outgoing() == set t | t in old(Outgoing()) && !Ledger.Contains(env, old(lastConfirmedBlock.Val().book.txs), t)
    {
      hide Ledger.Contains;
      ghost var was, settled := pendingOutgoing, lastConfirmedBlock.Val().book.txs;
      var todo := pendingOutgoing.Keys;
      while todo != {}
        invariant todo <= was.Keys
        invariant forall id :: id in pendingOutgoing ==> id in was && pendingOutgoing[id] == was[id]
        invariant forall id :: id in was ==>
                    (id in pendingOutgoing <==> id in todo || !Ledger.Contains(env, settled, was[id]))
        decreases todo
      {
        var id :| id in todo;
        var found := lastConfirmedBlock.Contains(env, pendingOutgoing[id]);
        if found { pendingOutgoing := pendingOutgoing - {id}; }
        todo := todo - {id};
      }
      SettledIs(was, pendingOutgoing, settled);
    }

    lemma SettledIs(was: map<TxId, Transaction>, kept: map<TxId, Transaction>, settled: seq<TxEntry>)
      requires forall id :: id in kept <==> id in was && !Ledger.Contains(env, settled, was[id])
      requires forall id :: id in kept ==> kept[id] == was[id]
      ensures (set id | id in kept :: kept[id]) == set t | t in (set id | id in was :: was[id]) && !Ledger.Contains(env, settled, t)
    {
      hide Ledger.Contains;
      forall t | t in (set id | id in was :: was[id]) && !Ledger.Contains(env, settled, t)
        ensures t in (set id | id in kept :: kept[id])
      {
        var id :| id in was && was[id] == t;
        assert id in kept;
      }
    }

    // -------------------------------------------------------------- searching for a block

    /** Puts a new block on the tip and offers it the whole pool, in whatever order it is enumerated. */
    method StartNewSearch(txSet: HashSet?<Transaction>, now: int) returns (ok: bool, ghost order: seq<Transaction>)
      requires Valid()
      requires txSet != null ==> txSet != transactions && txSet.Valid()
      modifies this`currentBlock, transactions
      ensures Valid() && stored == old(stored)
      ensures Listing(order, old(transactions.Elements()) + old(if txSet == null then {} else txSet.Elements()))
      ensures ok <==> Forks.StartNewSearch(env, old(State()), order, now).Some?
      ensures ok ==> Forks.StartNewSearch(env, old(State()), order, now) == Some(State())
    {
      hide Shape;
      hide TreeShape;
      hide Tree;
      hide Outgoing;
      hide Ideal;
      hide KeyedById;
      hide Block.Val;
      hide Assemble;
      hide Listing;
      hide Forks.StartNewSearch;
      ghost var before := State();
      DraftIs(now);
      AllForeign();
      var block;
      block, order := PrepareBlock(txSet, now, Draft(env, State(), now));
      ok := block != null;
      StartedIs(before, order, now);
      if ok {
        assert Tree() == before.blocks && Current() == before.current;
        assert Apart(block);
        Foreign(block);
        WorkOn(block);
      }
    }

    lemma DraftIs(now: int)
      requires TreeShape() && Shape()
      ensures Draft(env, State(), now)
              == NewBlock(env, address, lastBlock.Val(), if config.target.Some? then config.target.value else lastBlock.target,
                          config.coinbase, now)
    {
      hide HashOf;
      hide Tree;
    }

    lemma StartedIs(n: NodeVal, order: seq<Transaction>, now: int)
      ensures var s, book := Forks.StartNewSearch(env, n, order, now), Assemble(env, Draft(env, n, now).book, order);
              && (s.Some? <==> book.Some?)
              && (s.Some? ==> s == Some(n.(current := Some(BlockVal(Draft(env, n, now).meta, book.value)), pool := {})))
    {
      hide Assemble;
    }

    /** Makes a block of its own the one to mine. */
    method WorkOn(block: Block)
      requires Valid() && Apart(block)
      modifies this`currentBlock
      ensures Valid() && State() == old(State()).(current := Some(block.Val()))
    {
      hide Tree;
      hide TreeShape;
      hide Disjoint;
      hide Outgoing;
      hide Ideal;
      hide KeyedById;
      AllForeign();
      Foreign(block);
      currentBlock := block;
    }

    /** Empties the pool into a fresh block; null where the program crashes. */
    method PrepareBlock(txSet: HashSet?<Transaction>, now: int, ghost draft: BlockVal)
      returns (block: Block?, ghost order: seq<Transaction>)
      requires Valid() && lastBlock.Valid()
      requires txSet != null ==> txSet != transactions && txSet.Valid()
      requires draft == NewBlock(env, address, lastBlock.Val(),
                                 if config.target.Some? then config.target.value else lastBlock.target, config.coinbase, now)
      modifies transactions
      ensures transactions.Valid() && (block != null ==> transactions.Elements() == {})
      ensures Listing(order, old(transactions.Elements()) + old(if txSet == null then {} else txSet.Elements()))
      ensures block != null <==> Assemble(env, draft.book, order).Some?
      ensures block != null ==>
                && fresh(block) && fresh(block.Arrays()) && block.Valid()
                && block.Val() == BlockVal(draft.meta, Assemble(env, draft.book, order).value)
    {
      hide Shape;
      hide TreeShape;
      hide Assemble;
      hide Ideal;
      hide KeyedById;
      hide Block.Val;
      hide NewBlock;
      ghost var pool := transactions.Elements() + (if txSet == null then {} else txSet.Elements());
      Foreign(lastBlock);
      FillPool(txSet);
      var arr := transactions.ToArray();
      order := arr;
      assert Listing(order, pool);
      hide Listing;
      block := Assembled(arr, now, draft);
      if block != null { transactions.Clear(); }
    }

    /** A new block on the tip, filled from the given transactions, with its proof at 0; null where the
        program crashes. */
    method Assembled(txs: seq<Transaction>, now: int, ghost draft: BlockVal) returns (block: Block?)
      requires lastBlock.Valid()
      requires draft == NewBlock(env, address, lastBlock.Val(),
                                 if config.target.Some? then config.target.value else lastBlock.target, config.coinbase, now)
      ensures block != null <==> Assemble(env, draft.book, txs).Some?
      ensures block != null ==>
                && fresh(block) && fresh(block.Arrays()) && block.Valid()
                && block.Val() == BlockVal(draft.meta, Assemble(env, draft.book, txs).value)
    {
      hide Assemble;
      hide HashOf;
      var target := if config.target.Some? then config.target.value else lastBlock.target;
      var b := new Block.New(env, address, lastBlock, target, config.coinbase, now);
      var ok := Fill(b, txs);
      block := if ok then b else null;
    }

    method Fill(b: Block, txs: seq<Transaction>) returns (ok: bool)
      requires b.Valid()
      modifies b, b.Arrays()
      ensures b.Valid() && fresh(b.Arrays() - old(b.Arrays()))
      ensures ok <==> Assemble(env, old(b.Val().book), txs).Some?
      ensures ok ==> b.Val() == BlockVal(old(b.Val().meta).(proof := 0), Assemble(env, old(b.Val().book), txs).value)
    {
      hide Assemble;
      ok := OfferAll(b, txs);
      b.proof := 0;
    }

    method FillPool(txSet: HashSet?<Transaction>)
      requires Ideal(env) && transactions.Valid() && KeyedById(env, transactions)
      requires txSet != null ==> txSet != transactions && txSet.Valid()
      modifies transactions
      ensures transactions.Valid()
      ensures transactions.Elements() == old(transactions.Elements()) + old(if txSet == null then {} else txSet.Elements())
    {
      if txSet != null {
        var txList := txSet.ToArray();
        assert (set t | t in txList) == txSet.Elements();
        hide KeyedById;
        AddAll(env, transactions, txList);
      }
    }

    /** Writes to the block and its own arrays only. */
    method OfferAll(block: Block, txs: seq<Transaction>) returns (ok: bool)
      requires block.Valid()
      modifies block`transactions, block`balances, block`nextNonce, block.Arrays()
      ensures block.Valid() && fresh(block.Arrays() - old(block.Arrays()))
      ensures ok <==> Assemble(env, old(block.Val().book), txs).Some?
      ensures ok ==> Some(block.Val().book) == Assemble(env, old(block.Val().book), txs)
    {
      hide Apply;
      ghost var book := block.Val().book;
      var i := 0;
      while i < |txs|
        invariant 0 <= i <= |txs|
        invariant block.Valid() && fresh(block.Arrays() - old(block.Arrays()))
        invariant Assemble(env, book, txs) == Assemble(env, block.Val().book, txs[i..])
      {
        assert txs[i..][1..] == txs[i + 1..];
        var outcome := block.AddTransaction(env, txs[i]);
        if outcome.Crash? { return false; }
        i := i + 1;
      }
      ok := true;
    }

    /** Initialize and a received block both start a search; a fresh node starts with its own pool. */
    method Initialize(now: int) returns (ok: bool, ghost order: seq<Transaction>)
      requires Valid()
      modifies this`currentBlock, transactions
      ensures Valid() && Listing(order, old(transactions.Elements()))
      ensures ok <==> Forks.StartNewSearch(env, old(State()), order, now).Some?
      ensures ok ==> Forks.StartNewSearch(env, old(State()), order, now) == Some(State())
    {
      assert transactions.Elements() + {} == transactions.Elements();
      ok, order := StartNewSearch(null, now);
    }

    /** Tries the next proofs, and announces the block if one is valid. */
    method FindProof(rounds: u32) returns (found: bool)
      requires Valid() && currentBlock != null
      modifies currentBlock`proof, net`inFlight
      ensures Valid()
      ensures (State(), found) == Network.FindProof(env, old(State()), rounds)
      ensures net.inFlight == old(net.inFlight)
                + if found then Announcement(net.clients, address, currentBlock.Val()) else multiset{}
    {
      hide Shape;
      hide HasValidProof;
      hide Announcement;
      hide Scan;
      hide Block.Val;
      hide Tree;
      hide TreeShape;
      hide Outgoing;
      hide Ideal;
      hide KeyedById;
      Fields(currentBlock);
      found := TryProofs(Wrap(currentBlock.proof + rounds));
      AllForeign();
      ghost var m := State();
      if found {
        AnnounceProof();
        assert Tree() == m.blocks && Current() == m.current;
      }
    }

    method TryProofs(pausePoint: u32) returns (found: bool)
      requires Valid() && currentBlock != null
      modifies currentBlock`proof
      ensures Valid()
      ensures var q := Scan(env, old(currentBlock.Val()), old(currentBlock.proof), pausePoint);
              && State() == old(State()).(current := Some(WithProof(old(currentBlock.Val()), q)))
              && (found <==> q < pausePoint)
    {
      hide HasValidProof;
      hide Scan;
      hide Block.Val;
      hide Tree;
      hide TreeShape;
      hide Disjoint;
      hide Outgoing;
      hide Ideal;
      hide KeyedById;
      AllForeign();
      CurrentIsApart();
      found := Search(pausePoint);
      assert Apart(currentBlock);
    }

    method AnnounceProof()
      requires currentBlock != null
      modifies net`inFlight
      ensures net.inFlight == old(net.inFlight) + Announcement(net.clients, address, currentBlock.Val())
    {
      net.Broadcast(ProofFound(currentBlock.Val()));
      net.Go(address, ProofFound(currentBlock.Val()));
    }

    method Search(pausePoint: u32) returns (found: bool)
      requires currentBlock != null
      modifies currentBlock`proof
      ensures var q := Scan(env, old(currentBlock.Val()), old(currentBlock.proof), pausePoint);
              currentBlock.Val() == WithProof(old(currentBlock.Val()), q) && (found <==> q < pausePoint)
    {
      hide HasValidProof;
      found := false;
      ghost var start := currentBlock.Val();
      while currentBlock.proof < pausePoint
        invariant currentBlock.Val() == WithProof(start, currentBlock.proof)
        invariant Scan(env, start, start.meta.proof, pausePoint) == Scan(env, start, currentBlock.proof, pausePoint)
        decreases pausePoint - currentBlock.proof
      {
        if HasValidProof(env, currentBlock.Val()) { return true; }
        currentBlock.proof := currentBlock.proof + 1;
      }
    }

    method AddTransaction(tx: Transaction)
      requires Valid()
      modifies transactions
      ensures Valid() && State() == old(State()).(pool := old(State()).pool + {tx})
    {
      hide Shape;
      hide TreeShape;
      hide Tree;
      hide Outgoing;
      hide Ideal;
      hide KeyedById;
      hide Block.Val;
      AllForeign();
      IdsDistinguish(env, transactions);
      transactions.Add(tx);
    }

    // -------------------------------------------------------------- the wallet

    method ConfirmedBalance() returns (balance: u32)
      requires Valid()
      ensures balance == Wallet.ConfirmedBalance(State())
      ensures balance == Get(lastConfirmedBlock.Val().book.balances, address)
    {
      balance := lastConfirmedBlock.BalanceOf(address);
    }

    /** Confirmed balance minus the cost of every pending transaction, in 32 bits. */
    method AvailableGold() returns (gold: u32)
      requires Valid()
      ensures gold == Wallet.AvailableGold(old(State()))
    {
      hide Ideal;
      hide KeyedById;
      var pendingSpent := PendingSpent();
      var confirmed := ConfirmedBalance();
      gold := Wrap(confirmed as int - pendingSpent as int);
    }

    method PendingSpent() returns (pendingSpent: u32)
      requires forall id :: id in pendingOutgoing ==> IdOf(env, pendingOutgoing[id]) == id
      ensures pendingSpent == Wrap(Owed(Outgoing()))
    {
      hide TotalOutput;
      hide Wrap;
      pendingSpent := 0;
      NothingOwed();
      WrapIs(0);
      var todo := pendingOutgoing.Keys;
      ghost var done: set<Transaction> := {};
      while todo != {}
        invariant todo <= pendingOutgoing.Keys
        invariant done == set id | id in pendingOutgoing && id !in todo :: pendingOutgoing[id]
        invariant pendingSpent == Wrap(Owed(done))
        decreases todo
      {
        var id :| id in todo;
        var tx := pendingOutgoing[id];
        assert tx !in done;
        OwedWith(done, tx);
        WrapSum(Owed(done), TotalOutput(tx));
        var amount := SumOutputs(tx);
        pendingSpent := Wrap(pendingSpent as int + amount as int);
        todo, done := todo - {id}, done + {tx};
      }
      assert done == Outgoing();
    }

    /** None is the program's panic: not enough gold, or no outputs. Nothing has changed then. */
    method PostTransaction(outputs: seq<Output>, fee: u32) returns (posted: Option<Transaction>)
      requires Valid()
      modifies this`pendingOutgoing, this`nonce, net`inFlight
      ensures Valid()
      ensures var r := Wallet.PostTransaction(env, old(State()), outputs, fee, pubKey);
              && (r.None? ==> posted.None? && State() == old(State()) && net.inFlight == old(net.inFlight))
              && (r.Some? ==>
                    && posted == Some(r.value.1) && State() == r.value.0
                    && net.inFlight == old(net.inFlight) + ToAll(net.clients, PostTx(r.value.1))
                         + if config.miner then multiset{Msg(address, Queue(r.value.1))} else multiset{})
    {
      hide Shape;
      hide TreeShape;
      hide Tree;
      hide Ideal;
      hide KeyedById;
      hide Outgoing;
      hide Block.Val;
      hide ToAll;
      hide TotalOutput;
      hide Wallet.AvailableGold;
      hide NewTransaction;
      ghost var n := State();
      AllForeign();
      posted := None;
      var ok := MayPost(outputs, fee);
      assert Tree() == n.blocks && Current() == n.current;
      if ok {
        var tx := Commit(outputs, fee);
        AllForeign();
        ghost var m := State();
        Announce(tx);
        assert Tree() == m.blocks && Current() == m.current;
        posted := Some(tx);
      }
    }

    /** Enough gold, and something to pay. */
    method MayPost(outputs: seq<Output>, fee: u32) returns (ok: bool)
      requires Valid()
      ensures ok <==> TotalOutput(NewTransaction(env, old(State()), outputs, fee, pubKey)) <= Wallet.AvailableGold(old(State()))
                      && outputs != []
    {
      hide Shape;
      hide TreeShape;
      hide Tree;
      hide Ideal;
      hide KeyedById;
      hide Outgoing;
      hide Block.Val;
      hide Wallet.AvailableGold;
      hide Paid;
      hide Wrap;
      var gold := AvailableGold();
      var total := SumOf(outputs, fee);
      ok := total <= gold && |outputs| > 0;
    }

    /** Signs and records the next transaction. */
    method Commit(outputs: seq<Output>, fee: u32) returns (tx: Transaction)
      requires Valid()
      modifies this`pendingOutgoing, this`nonce
      ensures Valid() && tx == NewTransaction(env, old(State()), outputs, fee, pubKey)
      ensures State() == old(State()).(outgoing := old(State()).outgoing + {tx}, nonce := Wrap(old(nonce) + 1))
    {
      hide Shape;
      hide TreeShape;
      hide Tree;
      hide Outgoing;
      hide Ideal;
      hide KeyedById;
      hide Block.Val;
      AllForeign();
      var info := TransactionInfo(address, nonce, pubKey, fee, outputs, "");
      tx := Transaction(info, Some(env.signer(privKey, info)));
      AddOutgoing(tx);
      nonce := Wrap(nonce + 1);
    }

    /** Tells everybody; a miner also queues the transaction for its own pool. */
    method Announce(tx: Transaction)
      requires Valid()
      modifies net`inFlight
      ensures net.inFlight == old(net.inFlight) + ToAll(net.clients, PostTx(tx))
                + if config.miner then multiset{Msg(address, Queue(tx))} else multiset{}
    {
      net.Broadcast(PostTx(tx));
      if config.miner {
        net.Go(address, Queue(tx));
      }
    }

    method AddOutgoing(tx: Transaction)
      requires Valid()
      modifies this`pendingOutgoing
      ensures Valid() && Outgoing() == old(Outgoing()) + {tx}
    {
      ghost var was := pendingOutgoing;
      var id := IdOf(env, tx);
      if id in was { SameId(env, was[id], tx); }
      hide Ideal;
      hide KeyedById;
      pendingOutgoing := pendingOutgoing[id := tx];
      forall t | t in old(Outgoing()) + {tx} ensures t in Outgoing() {
        if t == tx {
          assert pendingOutgoing[id] == t;
        } else {
          var i :| i in was && was[i] == t;
          assert pendingOutgoing[i] == t;
        }
      }
    }

    method SumOf(outputs: seq<Output>, fee: u32) returns (total: u32)
      ensures total == Wrap(Paid(outputs) + fee)
    {
      total := fee;
      var i := 0;
      while i < |outputs|
        invariant 0 <= i <= |outputs|
        invariant total == Wrap(Paid(outputs[..i]) + fee)
      {
        assert outputs[..i + 1][..i] == outputs[..i];
        WrapSum(Paid(outputs[..i]) + fee, outputs[i].amount);
        total := Wrap(total + outputs[i].amount);
        i := i + 1;
      }
      assert outputs[..i] == outputs;
    }

    // -------------------------------------------------------------- moving to another branch

    /** Walks both branches down, over any store, and returns what the current one has and the new one lacks
        above where the walk ends; null where the program hashes a nil block. */
    method SyncTransaction(newBlock: Block) returns (cbTxs: HashSet?<Transaction>)
      requires Valid() && TreeInv(env, Tree()) && currentBlock != null && newBlock in stored
      requires newBlock.Val() in Tree().Values
      ensures cbTxs != null ==> fresh(cbTxs) && cbTxs.Valid()
      ensures var s := Forks.SyncTransaction(env, old(Tree()), old(currentBlock.Val()), old(newBlock.Val()));
              (cbTxs == null <==> s.None?) && (cbTxs != null ==> s == Some(cbTxs.Elements()))
    {
      hide Shape;
      hide TreeShape;
      hide Tree;
      hide TreeInv;
      hide Block.Val;
      hide Trail;
      hide Lockstep;
      hide Level;
      hide TxsAbove;
      ghost var c, d := Trail(Tree(), currentBlock.Val()), Trail(Tree(), newBlock.Val());
      Fields(currentBlock);
      var found, nbTxs;
      found, nbTxs := WalkToFork(newBlock, c, d);
      cbTxs := found;
      if cbTxs != null { Subtract(cbTxs, nbTxs); }
    }

    method Subtract(cbTxs: HashSet<Transaction>, nbTxs: HashSet<Transaction>)
      requires Ideal(env) && cbTxs != nbTxs && cbTxs.Valid() && KeyedById(env, cbTxs) && nbTxs.Valid()
      modifies cbTxs
      ensures cbTxs.Valid() && cbTxs.Elements() == old(cbTxs.Elements()) - old(nbTxs.Elements())
    {
      hide Ideal;
      hide KeyedById;
      var nbTxsArr := nbTxs.ToArray();
      assert (set t | t in nbTxsArr) == nbTxs.Elements();
      RemoveAll(env, cbTxs, nbTxsArr);
    }

    /** Both sets before the subtraction; the first is null where the program crashes. */
    method WalkToFork(newBlock: Block, ghost c: seq<BlockVal>, ghost d: seq<BlockVal>)
      returns (cbTxs: HashSet?<Transaction>, nbTxs: HashSet<Transaction>)
      requires Valid() && TreeInv(env, Tree()) && currentBlock != null && newBlock in stored
      requires newBlock.Val() in Tree().Values
      requires c == Trail(Tree(), currentBlock.Val()) && d == Trail(Tree(), newBlock.Val())
      ensures fresh(nbTxs) && nbTxs.Valid()
      ensures cbTxs != null ==> fresh(cbTxs) && cbTxs.Valid() && KeyedById(env, cbTxs) && cbTxs != nbTxs
      ensures var left := Lockstep(env, c, d[..Level(d, currentBlock.chainLength)]);
              && (cbTxs == null <==> left.None?)
              && (cbTxs != null ==> cbTxs.Elements() == TxsAbove(c, left.value.0) && nbTxs.Elements() == TxsAbove(d, left.value.1))
    {
      hide Shape;
      hide TreeShape;
      hide Tree;
      hide TreeInv;
      hide Ideal;
      hide KeyedById;
      hide Block.Val;
      hide Trail;
      hide Lockstep;
      hide TxsAbove;
      hide BranchTxs;
      hide TrailTo;
      hide Level;
      ghost var tree := Tree();
      AllForeign();
      StoredIsCovered(newBlock);
      TrailFacts(tree, currentBlock.Val());
      TrailFacts(tree, newBlock.Val());
      var cb := NewTxSet(env);
      nbTxs := NewTxSet(env);
      assert Tree() == tree && newBlock.Val() == d[|d| - 1];
      var nb := WalkToLevel(newBlock, nbTxs, d);
      assert Tree() == tree && currentBlock.Val() == c[|c| - 1];
      var ok := WalkInStep(nb, cb, nbTxs, c, d, Level(d, currentBlock.chainLength));
      cbTxs := if ok then cb else null;
    }

    /** What a trail through the store looks like. */
    lemma TrailFacts(tree: map<Hash, BlockVal>, b: BlockVal)
      requires Ideal(env) && TreeInv(env, tree)
      ensures TrailTo(tree, Trail(tree, b), b)
      ensures b in tree.Values ==> Trail(tree, b)[0].meta.height == 0
    {
      TrailIs(env, tree, b);
      if b in tree.Values {
        TrailBottom(tree, b, Trail(tree, b));
        StoredParent(tree, Trail(tree, b)[0]);
      }
    }

    lemma TrailBottom(tree: map<Hash, BlockVal>, b: BlockVal, ch: seq<BlockVal>)
      requires TrailTo(tree, ch, b) && b in tree.Values
      ensures ch[0] in tree.Values
    {
      if |ch| > 1 { assert tree[ch[1].meta.prev] == ch[0]; }
    }

    lemma StoredParent(tree: map<Hash, BlockVal>, b: BlockVal)
      requires TreeInv(env, tree)
      ensures b in tree.Values && b.meta.height > 0 ==> b.meta.prev in tree
    {
      hide Link;
    }

    /** The store and what it looks up. */
    lemma Lookup(h: Hash)
      requires TreeShape()
      ensures h in blocks <==> h in Tree()
      ensures h in blocks ==> Tree()[h] == blocks[h].Val() && blocks[h] in stored
    {
    }

    lemma StoredIsCovered(b: Block)
      requires TreeShape() && b in stored
      ensures b.Valid() && b in frozen && b.balances.arr in frozen && b.nextNonce.arr in frozen && b.transactions.arr in frozen
    {
    }

    /** Brings the new branch down to the height of the current block. */
    method WalkToLevel(newBlock: Block, nbTxs: HashSet<Transaction>, ghost d: seq<BlockVal>) returns (nb: Block)
      requires TreeShape() && Ideal(env) && currentBlock != null && newBlock in stored
      requires TrailTo(Tree(), d, newBlock.Val()) && d[0].meta.height == 0
      requires nbTxs !in frozen && nbTxs.Valid() && KeyedById(env, nbTxs) && nbTxs.Elements() == {}
      modifies nbTxs
      ensures nb in stored && nbTxs.Valid()
      ensures var k := Level(d, old(currentBlock.chainLength));
              k > 0 && nb.Val() == d[k - 1] && nbTxs.Elements() == BranchTxs(d[k..])
    {
      hide TreeShape;
      hide Tree;
      hide Ideal;
      hide KeyedById;
      hide Block.Val;
      hide Block.Arrays;
      hide TxSet;
      ghost var tree := Tree();
      var height := currentBlock.chainLength;
      nb := newBlock;
      ghost var k := |d|;
      assert d[k..] == [] && d[..k] == d;
      StoredIsCovered(nb);
      Fields(nb);
      while nb.chainLength > height
        invariant 0 < k <= |d| && TreeShape() && Tree() == tree && d[..k][0].meta.height == 0
        invariant nb in stored && nb.Valid() && nb.Val() == d[k - 1] && nb.Val().meta.height == nb.chainLength
        invariant Level(d[..k], height) == Level(d, height)
        invariant nbTxs.Valid() && nbTxs.Elements() == BranchTxs(d[k..])
        decreases k
      {
        nb := StepDown(nb, nbTxs, d, k);
        assert d[..k][..k - 1] == d[..k - 1];
        k := k - 1;
      }
    }

    method StepDown(b: Block, txs: HashSet<Transaction>, ghost d: seq<BlockVal>, ghost k: nat) returns (parent: Block)
      requires TreeShape() && Ideal(env) && b in stored && 1 < k <= |d| && b.Val() == d[k - 1]
      requires d[k - 1].meta.prev in Tree() && Tree()[d[k - 1].meta.prev] == d[k - 2]
      requires txs !in frozen && txs.Valid() && KeyedById(env, txs) && txs.Elements() == BranchTxs(d[k..])
      modifies txs
      ensures parent in stored && parent.Valid() && parent.Val() == d[k - 2] && parent.Val().meta.height == parent.chainLength
      ensures txs.Valid() && txs.Elements() == BranchTxs(d[k - 1..])
    {
      hide Tree;
      hide Ideal;
      hide KeyedById;
      hide Block.Val;
      hide BranchTxs;
      hide TxSet;
      StoredIsCovered(b);
      Fields(b);
      BranchTxsDown(d, k);
      Lookup(b.prevBlockHash);
      parent := blocks[b.prevBlockHash];
      StoredIsCovered(parent);
      Fields(parent);
      AddEntries(env, txs, b.transactions);
    }

    lemma BranchTxsDown(c: seq<BlockVal>, k: nat)
      requires 1 <= k <= |c|
      ensures BranchTxs(c[k - 1..]) == BranchTxs(c[k..]) + TxSet(c[k - 1].book.txs)
    {
      assert c[k - 1..][1..] == c[k..];
    }

    lemma SetIsForeign(b: Block, txs: HashSet<Transaction>)
      ensures txs !in b.Arrays()
    {
      var x: object, y: object, z: object := b.balances.arr, b.nextNonce.arr, b.transactions.arr;
      assert x != txs && y != txs && z != txs;
    }

    lemma LockstepDown(c: seq<BlockVal>, d: seq<BlockVal>, i: nat, j: nat)
      requires 0 < i <= |c| && 0 < j <= |d|
      ensures var met := HashOf(env, c[i - 1]) == HashOf(env, d[j - 1]);
              Lockstep(env, c[..i], d[..j]) ==
                if met then Some((i, j)) else if i == 1 then Some((0, j - 1)) else if j == 1 then None
                else Lockstep(env, c[..i - 1], d[..j - 1])
    {
      hide HashOf;
      assert c[..i][..i - 1] == c[..i - 1] && d[..j][..j - 1] == d[..j - 1];
    }

    /** Walks both branches down in step until their hashes meet or the current branch ends; false where the new
        branch ends first. */
    method WalkInStep(level: Block, cbTxs: HashSet<Transaction>, nbTxs: HashSet<Transaction>,
                      ghost c: seq<BlockVal>, ghost d: seq<BlockVal>, ghost k: nat) returns (ok: bool)
      requires TreeShape() && Ideal(env) && currentBlock != null && currentBlock.Valid() && level in stored
      requires |c| > 0 && TrailTo(Tree(), c, c[|c| - 1]) && 0 < k <= |d| && TrailTo(Tree(), d, d[|d| - 1])
      requires currentBlock.Val() == c[|c| - 1] && level.Val() == d[k - 1] && nbTxs.Elements() == BranchTxs(d[k..])
      requires cbTxs != nbTxs && cbTxs !in frozen && nbTxs !in frozen
      requires cbTxs.Valid() && KeyedById(env, cbTxs) && nbTxs.Valid() && KeyedById(env, nbTxs) && cbTxs.Elements() == {}
      modifies cbTxs, nbTxs
      ensures cbTxs.Valid() && nbTxs.Valid()
      ensures var left := Lockstep(env, c, d[..k]);
              && (ok <==> left.Some?)
              && (ok ==> cbTxs.Elements() == TxsAbove(c, left.value.0) && nbTxs.Elements() == TxsAbove(d, left.value.1))
    {
      hide TreeShape;
      hide Tree;
      hide Ideal;
      hide KeyedById;
      hide HashOf;
      hide Block.Val;
      hide Lockstep;
      hide BranchTxs;
      hide TrailTo;
      ghost var tree := Tree();
      ghost var i, j := |c|, k;
      assert c[i..] == [] && c[..i] == c && BranchTxs([]) == {} by { NoTxs(); }
      var cb: Block, nb: Block := currentBlock, level;
      StoredIsCovered(nb);
      LockstepDown(c, d, i, j);
      while HashOf(env, cb.Val()) != HashOf(env, nb.Val())
        invariant 0 < i <= |c| && 0 < j <= |d| && TreeShape() && Tree() == tree
        invariant cb.Valid() && cb.Val() == c[i - 1] && nb.Valid() && nb.Val() == d[j - 1]
        invariant Lockstep(env, c[..i], d[..j]) == Lockstep(env, c, d[..k])
        invariant cbTxs.Valid() && cbTxs.Elements() == BranchTxs(c[i..])
        invariant nbTxs.Valid() && nbTxs.Elements() == BranchTxs(d[j..])
        decreases i
      {
        LockstepDown(c, d, i, j);
        var cbParent, nbParent := StepBoth(cb, nb, cbTxs, nbTxs, c, d, i, j);
        if cbParent == null { return true; }
        if nbParent == null { return false; }
        cb, nb := cbParent, nbParent;
        i, j := i - 1, j - 1;
      }
      LockstepDown(c, d, i, j);
      ok := true;
    }

    lemma NoTxs()
      ensures BranchTxs([]) == {}
    {
    }

    /** One level of the walk: both blocks' transactions are taken, both parents looked up. */
    method StepBoth(cb: Block, nb: Block, cbTxs: HashSet<Transaction>, nbTxs: HashSet<Transaction>,
                    ghost c: seq<BlockVal>, ghost d: seq<BlockVal>, ghost i: nat, ghost j: nat)
      returns (cbParent: Block?, nbParent: Block?)
      requires TreeShape() && Ideal(env) && cb.Valid() && nb.Valid()
      requires |c| > 0 && |d| > 0 && TrailTo(Tree(), c, c[|c| - 1]) && TrailTo(Tree(), d, d[|d| - 1])
      requires 0 < i <= |c| && cb.Val() == c[i - 1] && 0 < j <= |d| && nb.Val() == d[j - 1]
      requires cbTxs != nbTxs && cbTxs !in frozen && nbTxs !in frozen
      requires cbTxs.Valid() && KeyedById(env, cbTxs) && cbTxs.Elements() == BranchTxs(c[i..])
      requires nbTxs.Valid() && KeyedById(env, nbTxs) && nbTxs.Elements() == BranchTxs(d[j..])
      modifies cbTxs, nbTxs
      ensures cbTxs.Valid() && cbTxs.Elements() == BranchTxs(c[i - 1..])
      ensures nbTxs.Valid() && nbTxs.Elements() == BranchTxs(d[j - 1..])
      ensures if i == 1 then cbParent == null else cbParent != null && cbParent.Valid() && cbParent.Val() == c[i - 2]
      ensures if j == 1 then nbParent == null else nbParent != null && nbParent.Valid() && nbParent.Val() == d[j - 2]
    {
      hide TreeShape;
      hide Tree;
      hide Ideal;
      hide KeyedById;
      hide Block.Val;
      hide BranchTxs;
      hide TxSet;
      Fields(cb);
      Fields(nb);
      BranchTxsDown(c, i);
      BranchTxsDown(d, j);
      SetIsForeign(nb, cbTxs);
      cbParent := Parent(cb);
      nbParent := Parent(nb);
      assert if i == 1 then cbParent == null else cbParent != null && cbParent.Val() == c[i - 2];
      assert if j == 1 then nbParent == null else nbParent != null && nbParent.Val() == d[j - 2];
      if cbParent != null { SetIsForeign(cbParent, cbTxs); SetIsForeign(cbParent, nbTxs); }
      if nbParent != null { SetIsForeign(nbParent, cbTxs); SetIsForeign(nbParent, nbTxs); }
      AddEntries(env, cbTxs, cb.transactions);
      AddEntries(env, nbTxs, nb.transactions);
    }

    method Parent(b: Block) returns (parent: Block?)
      requires TreeShape()
      ensures if b.prevBlockHash in Tree() then parent != null && parent.Valid() && parent.Val() == Tree()[b.prevBlockHash]
              else parent == null
    {
      hide Tree;
      Lookup(b.prevBlockHash);
      parent := if b.prevBlockHash in blocks then blocks[b.prevBlockHash] else null;
    }

    // -------------------------------------------------------------- receiving a block

    /** Files a validated block, moves the tip if it is higher, and spawns a call for every block that
        waited for it. */
    method File(block: Block) returns (ghost receipt: Receipt)
      requires Valid() && Separate(block)
      requires Rooted(State().blocks[HashOf(env, block.Val()) := block.Val()], block.Val())
      modifies this`blocks, this`stored, this`frozen, this`lastBlock, this`lastConfirmedBlock, this`pendingOutgoing,
               this`pendingBlocks, net`inFlight
      ensures Valid() && stored == old(stored) + {block} && frozen == old(frozen) + {block} + block.Arrays()
      ensures Keeps(env, old(State()), block.Val(), State(), receipt)
      ensures receipt.Stored? && receipt.block == block.Val()
      ensures net.inFlight == old(net.inFlight) + Calls(address, receipt.freed)
    {
      hide Shape;
      hide TreeShape;
      hide Tree;
      hide Outgoing;
      hide Ideal;
      hide KeyedById;
      hide Block.Val;
      hide Keeps;
      hide Rooted;
      hide HashOf;
      hide Calls;
      var waiting;
      waiting, receipt := FileAndFree(block);
      AllForeign();
      Foreign(block);
      ghost var m := State();
      Spawn(waiting);
      assert Tree() == m.blocks && Current() == m.current;
    }

    method FileAndFree(block: Block) returns (waiting: map<Hash, BlockVal>, ghost receipt: Receipt)
      requires Valid() && Separate(block)
      requires Rooted(State().blocks[HashOf(env, block.Val()) := block.Val()], block.Val())
      modifies this`blocks, this`stored, this`frozen, this`lastBlock, this`lastConfirmedBlock, this`pendingOutgoing,
               this`pendingBlocks
      ensures Valid() && stored == old(stored) + {block} && frozen == old(frozen) + {block} + block.Arrays()
      ensures Keeps(env, old(State()), block.Val(), State(), receipt)
      ensures receipt == Stored(block.Val(), waiting)
    {
      hide Shape;
      hide TreeShape;
      hide Tree;
      hide Outgoing;
      hide Ideal;
      hide KeyedById;
      hide Block.Val;
      hide Keeps;
      hide Store.SetLastConfirmed;
      hide Rooted;
      hide HashOf;
      ghost var n := State();
      FileInTree(block);
      Foreign(block);
      waiting := Unpark(HashOf(env, block.Val()));
      receipt := Stored(block.Val(), waiting);
      KeepIs(n, block.Val(), State(), receipt);
    }

    /** The block may join the store: it shares nothing with the stored blocks nor with the current one. */
    ghost predicate Separate(block: Block)
      reads this`frozen, this`currentBlock, this`transactions, block, currentBlock
    {
      && Apart(block)
      && (currentBlock != null ==> block != currentBlock && block.Arrays() !! {currentBlock} + currentBlock.Arrays()
                                   && block !in currentBlock.Arrays())
      && {block} + block.Arrays() !! {this, net, transactions}
    }

    /** Takes out the blocks that waited for the given one. */
    method Unpark(id: Hash) returns (waiting: map<Hash, BlockVal>)
      requires Valid()
      modifies this`pendingBlocks
      ensures Valid() && State() == old(State()).(parked := old(pendingBlocks) - {id})
      ensures waiting == if id in old(pendingBlocks) then old(pendingBlocks)[id] else map[]
    {
      hide Shape;
      hide TreeShape;
      hide Tree;
      hide Outgoing;
      hide Ideal;
      hide KeyedById;
      hide Block.Val;
      AllForeign();
      waiting := if id in pendingBlocks then pendingBlocks[id] else map[];
      pendingBlocks := pendingBlocks - {id};
    }

    method FileInTree(block: Block)
      requires Valid() && Separate(block)
      requires Rooted(State().blocks[HashOf(env, block.Val()) := block.Val()], block.Val())
      modifies this`blocks, this`stored, this`frozen, this`lastBlock, this`lastConfirmedBlock, this`pendingOutgoing
      ensures Valid() && stored == old(stored) + {block} && frozen == old(frozen) + {block} + block.Arrays()
      ensures var filed := old(State()).(blocks := old(State()).blocks[HashOf(env, block.Val()) := block.Val()]);
              State() == if old(State()).last.meta.height < block.Val().meta.height
                         then Store.SetLastConfirmed(env, filed.(last := block.Val())) else filed
    {
      hide Shape;
      hide TreeShape;
      hide Tree;
      hide Outgoing;
      hide Ideal;
      hide KeyedById;
      hide Block.Val;
      AllForeign();
      Fields(lastBlock);
      Fields(block);
      hide Store.SetLastConfirmed;
      hide Rooted;
      hide HashOf;
      Insert(block);
      if lastBlock.chainLength < block.chainLength { MoveTip(block); }
    }

    /** Makes a stored block the tip. */
    method MoveTip(block: Block)
      requires Valid() && block in stored && Rooted(Tree(), block.Val())
      modifies this`lastBlock, this`lastConfirmedBlock, this`pendingOutgoing
      ensures Valid()
      ensures State() == Store.SetLastConfirmed(env, old(State()).(last := block.Val()))
    {
      hide Shape;
      hide TreeShape;
      hide Tree;
      hide Outgoing;
      hide Ideal;
      hide KeyedById;
      hide Block.Val;
      hide Store.SetLastConfirmed;
      hide Rooted;
      Foreign(block);
      AllForeign();
      SetTip(block);
      SetLastConfirmed();
    }

    method SetTip(block: Block)
      requires Valid() && block in stored
      modifies this`lastBlock
      ensures Valid() && lastBlock == block && State() == old(State()).(last := block.Val())
    {
      hide Tree;
      hide TreeShape;
      hide Disjoint;
      hide Outgoing;
      hide Ideal;
      hide KeyedById;
      hide Block.Val;
      AllForeign();
      Foreign(block);
      AllForeign();
      Foreign(block);
      lastBlock := block;
    }

    lemma InsertKeeps(block: Block)
      requires Valid() && Separate(block)
      ensures var id, more, grown := HashOf(env, block.Val()), stored + {block}, frozen + {block} + block.Arrays();
              && Covers(grown, more) && Within(blocks[id := block], more) && Disjoint(more)
              && TreeOf(blocks[id := block], more, grown) == Tree()[id := block.Val()]
              && this !in grown && net !in grown && transactions !in grown
              && (currentBlock != null ==> currentBlock.Valid() && currentBlock !in grown && currentBlock.Arrays() !! grown)
    {
      hide Covers;
      hide Within;
      hide Disjoint;
      hide TreeOf;
      hide HashOf;
      hide Block.Val;
      DisjointMore(frozen, stored, block);
      TreeMore(blocks, stored, frozen, HashOf(env, block.Val()), block);
    }

    method Insert(block: Block)
      requires Valid() && Separate(block)
      modifies this`blocks, this`stored, this`frozen
      ensures Valid() && stored == old(stored) + {block} && frozen == old(frozen) + {block} + block.Arrays()
      ensures State() == old(State()).(blocks := old(State()).blocks[HashOf(env, block.Val()) := block.Val()])
    {
      hide Covers;
      hide Within;
      hide Disjoint;
      hide TreeOf;
      hide Outgoing;
      hide Ideal;
      hide KeyedById;
      hide HashOf;
      hide Block.Val;
      hide Separate;
      AllForeign();
      InsertKeeps(block);
      blocks := blocks[HashOf(env, block.Val()) := block];
      stored := stored + {block};
      frozen := frozen + {block} + block.Arrays();
    }

    /** One ReceiveBlock call for each freed block. */
    method Spawn(waiting: map<Hash, BlockVal>)
      modifies net`inFlight
      ensures net.inFlight == old(net.inFlight) + Calls(address, waiting)
    {
      var todo := waiting.Values;
      ghost var done: set<BlockVal> := {};
      while todo != {}
        invariant todo <= waiting.Values && done == waiting.Values - todo
        invariant net.inFlight == old(net.inFlight) + multiset(set f | f in done :: Msg(address, ProofFound(f)))
        decreases todo
      {
        var b :| b in todo;
        net.Go(address, ProofFound(b));
        assert (set f | f in done + {b} :: Msg(address, ProofFound(f)))
               == (set f | f in done :: Msg(address, ProofFound(f))) + {Msg(address, ProofFound(b))};
        assert Msg(address, ProofFound(b)) !in (set f | f in done :: Msg(address, ProofFound(f)));
        todo, done := todo - {b}, done + {b};
      }
      assert done == waiting.Values;
    }

    /** Parks an orphan under its parent, and asks for the parent the first time. */
    method Park(b: BlockVal) returns (ghost receipt: Receipt)
      requires Valid()
      modifies this`pendingBlocks, net`inFlight
      ensures Valid()
      ensures (State(), receipt) == Store.Park(env, old(State()), b)
      ensures net.inFlight == old(net.inFlight) + SentOnReceipt(net.clients, address, b, receipt)
    {
      hide Shape;
      hide TreeShape;
      hide Tree;
      hide Outgoing;
      hide Ideal;
      hide KeyedById;
      hide Block.Val;
      AllForeign();
      hide HashOf;
      hide ToAll;
      var id, k := HashOf(env, b), b.meta.prev;
      receipt := Parked(k !in pendingBlocks);
      var stuck: map<Hash, BlockVal> := map[];
      if k !in pendingBlocks {
        RequestMissingBlock(b);
      } else {
        stuck := pendingBlocks[k];
      }
      if id !in stuck { stuck := stuck[id := b]; }
      pendingBlocks := pendingBlocks[k := stuck];
    }

    /** The client's part of ReceiveBlock: everything but the cut-over. */
    method Accept(b: Block, ghost v: BlockVal) returns (r: Block?, ghost receipt: Receipt)
      requires Valid() && NodeInv(env, State()) && Deliverable(b) && v == b.Val()
      modifies this`blocks, this`stored, this`frozen, this`lastBlock, this`lastConfirmedBlock, this`pendingOutgoing,
               this`pendingBlocks, net`inFlight
      ensures Valid() && old(stored) <= stored && old(frozen) <= frozen
      ensures Accepts(env, old(State()), v, State(), receipt)
      ensures if r == null then !receipt.Stored? else receipt.Stored? && r in stored && r.Val() == receipt.block
      ensures !receipt.Crashed? ==> net.inFlight == old(net.inFlight) + SentOnReceipt(net.clients, address, v, receipt)
    {
      hide Shape;
      hide TreeShape;
      hide Tree;
      hide Ideal;
      hide KeyedById;
      hide Block.Val;
      hide HashOf;
      hide HasValidProof;
      hide Receive;
      hide Keep;
      hide Store.Park;
      hide NodeInv;
      hide Deliverable;
      ghost var n := State();
      ReceiveCases(n, v);
      ParkParks(env, n, v);
      Fields(b);
      var id := HashOf(env, b.Val());
      Lookup(id);
      Lookup(b.prevBlockHash);
      r, receipt := null, Dropped;
      if id in blocks { return; }
      if !HasValidProof(env, b.Val()) && b.chainLength != 0 { return; }
      if b.prevBlockHash !in blocks && b.chainLength != 0 {
        receipt := Park(b.Val());
        return;
      }
      r, receipt := Take(b, v);
    }

    /** A decoded message, or the current block passed by value. A block of height 0 is stored as it comes, so
        its arrays must be its own. */
    ghost predicate Deliverable(b: Block)
      reads this`frozen, this`currentBlock, this`transactions, b, currentBlock
    {
      b.Valid() && (b.chainLength == 0 ==> Separate(b))
    }

    /** Validates a block whose parent is there, and files it. */
    method Take(b: Block, ghost v: BlockVal) returns (r: Block?, ghost receipt: Receipt)
      requires Valid() && NodeInv(env, State()) && Deliverable(b) && v == b.Val() && Ready(env, State(), v)
      modifies this`blocks, this`stored, this`frozen, this`lastBlock, this`lastConfirmedBlock, this`pendingOutgoing,
               this`pendingBlocks, net`inFlight
      ensures Valid() && old(stored) <= stored && old(frozen) <= frozen
      ensures Accepts(env, old(State()), v, State(), receipt)
      ensures if r == null then receipt.Dropped? || receipt.Crashed?
              else receipt.Stored? && r in stored && r.Val() == receipt.block
      ensures !receipt.Crashed? ==> net.inFlight == old(net.inFlight) + SentOnReceipt(net.clients, address, v, receipt)
    {
      hide Shape;
      hide TreeShape;
      hide Tree;
      hide Ideal;
      hide KeyedById;
      hide Block.Val;
      hide HashOf;
      hide HasValidProof;
      hide Receive;
      hide Keep;
      hide NodeInv;
      hide Ready;
      hide Rooted;
      hide LeadsTo;
      hide Separate;
      hide Deliverable;
      ghost var n := State();
      AllForeign();
      var outcome;
      r, outcome := Validate(b);
      assert Tree() == n.blocks && Current() == n.current;
      receipt := if outcome.Crash? then Crashed else Dropped;
      if r != null {
        KeptIsRooted(n, v, r.Val());
        receipt := TakeIn(r, v);
      }
    }

    /** Files the block that a received block b amounts to. */
    method TakeIn(block: Block, ghost b: BlockVal) returns (ghost receipt: Receipt)
      requires Valid() && Separate(block) && LeadsTo(env, State(), b, block.Val())
      requires Rooted(State().blocks[HashOf(env, block.Val()) := block.Val()], block.Val())
      modifies this`blocks, this`stored, this`frozen, this`lastBlock, this`lastConfirmedBlock, this`pendingOutgoing,
               this`pendingBlocks, net`inFlight
      ensures Valid() && stored == old(stored) + {block} && frozen == old(frozen) + {block} + block.Arrays()
      ensures Accepts(env, old(State()), b, State(), receipt)
      ensures receipt.Stored? && receipt.block == block.Val()
      ensures net.inFlight == old(net.inFlight) + SentOnReceipt(net.clients, address, b, receipt)
    {
      hide Shape;
      hide TreeShape;
      hide Tree;
      hide Outgoing;
      hide Ideal;
      hide KeyedById;
      hide Block.Val;
      hide Accepts;
      hide Keeps;
      hide LeadsTo;
      hide Rooted;
      hide HashOf;
      hide Calls;
      ghost var n := State();
      receipt := File(block);
      KeptIsAccepted(n, b, State(), receipt);
    }

    lemma KeepIs(n: NodeVal, b: BlockVal, m: NodeVal, receipt: Receipt)
      requires var id := HashOf(env, b);
               var filed := n.(blocks := n.blocks[id := b]);
               var tipped := if n.last.meta.height < b.meta.height then Store.SetLastConfirmed(env, filed.(last := b)) else filed;
               && m == tipped.(parked := tipped.parked - {id})
               && receipt == Stored(b, if id in tipped.parked then tipped.parked[id] else map[])
      ensures Keeps(env, n, b, m, receipt)
    {
      hide HashOf;
      hide ConfirmedOf;
      hide Ledger.Contains;
    }

    lemma KeptIsAccepted(n: NodeVal, b: BlockVal, m: NodeVal, receipt: Receipt)
      requires receipt.Stored? && Keeps(env, n, receipt.block, m, receipt)
      requires LeadsTo(env, n, b, receipt.block)
      ensures Accepts(env, n, b, m, receipt)
    {
      hide Receive;
      hide Keep;
    }

    lemma KeptIsRooted(n: NodeVal, b: BlockVal, kept: BlockVal)
      requires Ideal(env) && NodeInv(env, n) && LeadsTo(env, n, b, kept)
      ensures Rooted(n.blocks[HashOf(env, kept) := kept], kept)
    {
      hide Receive;
      hide Fileable;
      hide Keep;
      hide HashOf;
      ReceiveKeepsInv(env, n, b);
      KeepStores(env, n, kept);
      FileKeepsTree(env, n.blocks, kept);
      var more := n.blocks[HashOf(env, kept) := kept];
      assert Rooted(more, more[HashOf(env, kept)]);
    }

    /** The outcome of Receive, case by case. */
    lemma ReceiveCases(n: NodeVal, b: BlockVal)
      ensures var child := b.meta.height != 0;
              var known := HashOf(env, b) in n.blocks;
              && (known || (child && !HasValidProof(env, b)) ==> Receive(env, n, b) == (n, Dropped))
              && (!known && !child ==> Receive(env, n, b) == Keep(env, n, b))
              && (!known && child && HasValidProof(env, b) ==>
                    if b.meta.prev !in n.blocks then Receive(env, n, b) == Store.Park(env, n, b)
                    else var s := Ledger.Rerun(env, b.book.txs, n.blocks[b.meta.prev]);
                         && (s.Accepted? ==> Receive(env, n, b) == Keep(env, n, BlockVal(b.meta, s.book)))
                         && (s.Rejected? ==> Receive(env, n, b) == (n, Dropped))
                         && (s.Panic? ==> Receive(env, n, b).1.Crashed?))
    {
      hide HashOf;
      hide HasValidProof;
      hide Ledger.Rerun;
      hide Keep;
      hide Store.Park;
    }

    /** A copy of the received block, its lists rebuilt from its parent; null if the replay fails or crashes. */
    method Validate(b: Block) returns (block: Block?, outcome: Outcome)
      requires Valid() && Deliverable(b) && Ready(env, State(), b.Val())
      ensures block == null <==> !outcome.Taken?
      ensures block != null ==> Separate(block) && fresh(block) && LeadsTo(env, old(State()), old(b.Val()), block.Val())
      ensures outcome.Refused? ==> Receive(env, old(State()), old(b.Val())) == (old(State()), Dropped)
      ensures outcome.Crash? ==> Receive(env, old(State()), old(b.Val())).1 == Crashed
    {
      hide Shape;
      hide TreeShape;
      hide Tree;
      hide Ideal;
      hide KeyedById;
      hide Block.Val;
      hide HashOf;
      hide HasValidProof;
      hide Receive;
      hide Keep;
      hide Ledger.Rerun;
      AllForeign();
      Fields(b);
      ReceiveCases(State(), b.Val());
      if b.chainLength == 0 {
        block := new Block.Share(b);
        Foreign(block);
        outcome := Taken;
      } else {
        Lookup(b.prevBlockHash);
        StoredIsCovered(blocks[b.prevBlockHash]);
        block, outcome := Rebuild(b, blocks[b.prevBlockHash]);
        if block != null { Foreign(block); }
      }
    }

    /** Copies the headers and rebuilds the lists. Nothing that exists is written to, not even the arrays that
        the copy shares with the original until then. */
    method Rebuild(b: Block, prev: Block) returns (block: Block?, outcome: Outcome)
      requires b.Valid() && prev.Valid()
      ensures outcome == OutcomeOf(Ledger.Rerun(env, old(b.Val().book.txs), old(prev.Val())))
      ensures block == null <==> !outcome.Taken?
      ensures block != null ==>
                && fresh(block) && fresh(block.Arrays()) && block.Valid()
                && block.Val() == BlockVal(old(b.Val().meta), Ledger.Rerun(env, old(b.Val().book.txs), old(prev.Val())).book)
    {
      hide Ledger.Rerun;
      var copy := new Block.Share(b);
      assert Items(copy.transactions) == b.Val().book.txs;
      outcome := copy.Rerun(env, prev);
      block := if outcome.Taken? then copy else null;
    }

    /** ReceiveBlock of all three programs: store the block, and if it is at least as high as the block being
        mined, carry over what the abandoned branch had and start on the new tip. No stored block object and
        none of the stored blocks' arrays is ever written to, and they stay pairwise disjoint. */
    method ReceiveBlock(b: Block, now: int)
      returns (r: Block?, ghost receipt: Receipt, ghost order: seq<Transaction>)
      requires Valid() && NodeInv(env, State()) && Deliverable(b)
      modifies this, transactions, net`inFlight
      ensures Valid()
      ensures Receives(env, old(State()), old(b.Val()), order, now, State(), receipt)
      ensures receipt.Stored? ==> r != null && r in stored && r.Val() == receipt.block
      ensures receipt.Dropped? || receipt.Parked? ==> r == null
      ensures !receipt.Crashed? ==>
                net.inFlight == old(net.inFlight) + SentOnReceipt(net.clients, address, old(b.Val()), receipt)
      ensures old(stored) <= stored && unchanged(old(frozen))
    {
      hide Shape;
      hide TreeShape;
      hide Tree;
      hide Ideal;
      hide KeyedById;
      hide Block.Val;
      hide NodeInv;
      hide Accepts;
      hide Follows;
      hide Receives;
      hide SentOnReceipt;
      hide Deliverable;
      ghost var n, v := State(), b.Val();
      r, receipt := Accept(b, v);
      order := [];
      ghost var m, got := State(), receipt;
      var ok := true;
      if r != null {
        AcceptedIsStored(n, v, m, receipt);
        ok, order := Follow(r, now);
      }
      if !ok { receipt := Crashed; }
      OutcomeIs(n, v, m, got, order, now, State(), ok);
    }

    lemma AcceptedIsStored(n: NodeVal, b: BlockVal, m: NodeVal, receipt: Receipt)
      requires Ideal(env) && NodeInv(env, n) && Accepts(env, n, b, m, receipt) && receipt.Stored?
      ensures TreeInv(env, m.blocks) && receipt.block in m.blocks.Values
    {
      hide TreeInv;
      ReceiveKeepsInv(env, n, b);
      ReceiveFiles(env, n, b);
      hide Receive;
      assert m.blocks[HashOf(env, receipt.block)] == receipt.block;
    }

    /** What the receipt and the follow-up add up to. */
    lemma OutcomeIs(n: NodeVal, b: BlockVal, m: NodeVal, got: Receipt, order: seq<Transaction>, now: int, s: NodeVal, ok: bool)
      requires Accepts(env, n, b, m, got)
      requires if got.Stored? then Follows(env, m, got.block, order, now, s, ok) else s == m && ok
      ensures Receives(env, n, b, order, now, s, if ok then got else Crashed)
    {
      hide Receive;
      hide Listing;
      hide Forks.SyncTransaction;
      hide CutsOver;
      hide Assemble;
    }

    /** Starts on a stored block if it is at least as high as the block being mined. */
    method Follow(r: Block, now: int) returns (ok: bool, ghost order: seq<Transaction>)
      requires Valid() && TreeInv(env, State().blocks) && r in stored && r.Val() in State().blocks.Values
      modifies this`currentBlock, transactions
      ensures Valid() && r.Val() == old(r.Val())
      ensures Follows(env, old(State()), old(r.Val()), order, now, State(), ok)
    {
      hide Shape;
      hide TreeShape;
      hide Tree;
      hide TreeInv;
      hide Ideal;
      hide KeyedById;
      hide Block.Val;
      hide Listing;
      hide Forks.StartNewSearch;
      hide Forks.SyncTransaction;
      Fields(r);
      if currentBlock != null { Fields(currentBlock); }
      ok, order := true, [];
      if currentBlock != null && r.chainLength >= currentBlock.chainLength {
        ok, order := CutOver(r, now);
      }
    }

    /** Carries over what the abandoned branch had and starts on the new tip; ok is false where that crashes. */
    method CutOver(r: Block, now: int) returns (ok: bool, ghost order: seq<Transaction>)
      requires Valid() && TreeInv(env, State().blocks) && currentBlock != null && r in stored
      requires r.Val() in State().blocks.Values && CutsOver(State(), r.Val())
      modifies this`currentBlock, transactions
      ensures Valid() && r.Val() == old(r.Val())
      ensures Follows(env, old(State()), old(r.Val()), order, now, State(), ok)
    {
      hide Shape;
      hide TreeShape;
      hide Tree;
      hide TreeInv;
      hide Ideal;
      hide KeyedById;
      hide Block.Val;
      hide Listing;
      hide Forks.StartNewSearch;
      hide Forks.SyncTransaction;
      ghost var m := State();
      AllForeign();
      StoredIsCovered(r);
      Foreign(r);
      ok, order := false, [];
      var txSet := SyncTransaction(r);
      assert Tree() == m.blocks && Current() == m.current;
      if txSet != null { ok, order := StartNewSearch(txSet, now); }
    }

    // -------------------------------------------------------------- missing blocks

    method RequestMissingBlock(b: BlockVal)
      modifies net`inFlight
      ensures net.inFlight == old(net.inFlight) + ToAll(net.clients, MissingBlock(address, b.meta.prev))
    {
      net.Broadcast(MissingBlock(address, b.meta.prev));
    }

    /** Sends a stored block to whoever asks for it; false where that crashes the program, because the asker is
        not registered. */
    method ProvideMissingBlock(asker: Address, hash: Hash) returns (ok: bool)
      requires Valid()
      modifies net`inFlight
      ensures ok <==> (hash in Tree() ==> asker in net.clients)
      ensures net.inFlight == old(net.inFlight)
                + if hash in Tree() && ok then multiset{Msg(asker, ProofFound(Tree()[hash]))} else multiset{}
    {
      ok := true;
      if hash in blocks {
        ok := net.SendMessage(asker, ProofFound(blocks[hash].Val()));
      }
    }
  }
}
