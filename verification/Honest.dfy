/** Runs in which every block comes from a miner working over one shared genesis block. */
module Honest {
  import opened Prelude
  import opened Ledger
  import opened Chains
  import opened Store

  /** The shared genesis block, the configured coinbase, and the greatest height the run reaches. */
  datatype World = World(genesis: BlockVal, coinbase: u32, horizon: u32)

  function Minted(coinbase: u32, blocks: nat): nat {
    if blocks == 0 then 0 else Minted(coinbase, blocks - 1) + coinbase
  }

  /** MakeGenesis pays nobody, and all gold ever minted up to the horizon fits in 32 bits. */
  ghost predicate Lawful(env: Env, w: World) {
    && Ideal(env)
    && w.genesis.meta.height == 0 && w.genesis.meta.rewardAddr == ""
    && w.genesis.book.txs == [] && w.genesis.book.nonces == []
    && w.horizon < 0xFFFF_FFFF
    && Total(w.genesis.book.balances) + Minted(w.coinbase, w.horizon as nat + 1) < 0x1_0000_0000
  }

  /** b is a block an honest miner puts on p. */
  ghost predicate GoodLink(env: Env, w: World, p: BlockVal, b: BlockVal) {
    && Link(env, p, b)
    && b.meta.height == p.meta.height + 1 <= w.horizon
    && b.meta.coinbase == w.coinbase
    && AllSound(w.genesis.book.balances, b.book.txs)
    && HasValidProof(env, b)
  }

  /** b descends from the genesis block through honest blocks only. */
  ghost predicate Good(env: Env, w: World, b: BlockVal)
    decreases b.meta.height
  {
    if b.meta.height == 0 then b == w.genesis
    else exists p: BlockVal :: p.meta.height == b.meta.height - 1 && Good(env, w, p) && GoodLink(env, w, p, b)
  }

  ghost function GoodParent(env: Env, w: World, b: BlockVal): (p: BlockVal)
    requires Good(env, w, b) && b.meta.height > 0
    ensures p.meta.height == b.meta.height - 1 && Good(env, w, p) && GoodLink(env, w, p, b)
  {
    var p: BlockVal :| p.meta.height == b.meta.height - 1 && Good(env, w, p) && GoodLink(env, w, p, b);
    p
  }

  /** Header of an honest block; the ledger that travels with it may be anything. */
  ghost predicate Genuine(env: Env, w: World, b: BlockVal) {
    exists book: Book :: book.txs == b.book.txs && Good(env, w, BlockVal(b.meta, book))
  }

  lemma {:induction false} MintedGrows(coinbase: u32, i: nat, j: nat)
    requires i <= j
    ensures Minted(coinbase, i) <= Minted(coinbase, j)
  {
    if i < j { MintedGrows(coinbase, i, j - 1); }
  }

  /** The supply of an honest chain never outgrows the starting supply plus one coinbase a block. */
  lemma {:induction false} SupplyBound(env: Env, w: World, b: BlockVal)
    requires Lawful(env, w) && Good(env, w, b)
    ensures b.meta.height <= w.horizon
    ensures Total(b.book.balances) <= Total(w.genesis.book.balances) + Minted(w.coinbase, b.meta.height as nat)
    ensures Total(b.book.balances) + Reward(b, b.meta.rewardAddr) < 0x1_0000_0000
    decreases b.meta.height
  {
    hide Total;
    hide Link;
    hide Ideal;
    if b.meta.height > 0 {
      var p := GoodParent(env, w, b);
      SupplyBound(env, w, p);
      BlockConserves(env, p, b);
      RewardIsCoinbase(env, w, p);
      SoundFits(w.genesis.book.balances, b.book.txs);
    }
    RewardIsCoinbase(env, w, b);
    MintedGrows(w.coinbase, b.meta.height as nat + 1, w.horizon as nat + 1);
  }

  /** If the genesis block lists nobody twice, which is how MakeGenesis makes it, then in no honest block do
      the addresses own more than that together. */
  lemma {:induction false} GoodListsOnce(env: Env, w: World, b: BlockVal)
    requires Lawful(env, w) && Good(env, w, b) && Distinct(w.genesis.book.balances)
    ensures ListsOnce(b.book)
    ensures Owned(b) <= Owned(w.genesis) + Minted(w.coinbase, b.meta.height as nat)
    decreases b.meta.height
  {
    hide Total;
    hide Rerun;
    hide Ideal;
    hide SumOf;
    if b.meta.height > 0 {
      var p := GoodParent(env, w, b);
      GoodListsOnce(env, w, p);
      RerunListsOnce(env, b.book.txs, p);
    }
    SupplyBound(env, w, b);
    TotalIsSum(b.book.balances);
    TotalIsSum(w.genesis.book.balances);
  }

  lemma SoundFits(payers: seq<Entry>, txs: seq<TxEntry>)
    requires AllSound(payers, txs)
    ensures NoneOverflows(txs)
  {
  }

  /** Whoever is listed in the genesis block is listed in every honest block. */
  lemma {:induction false} GoodLists(env: Env, w: World, b: BlockVal)
    requires Good(env, w, b)
    ensures Lists(w.genesis.book.balances, b.book.balances)
    decreases b.meta.height
  {
    hide Has;
    if b.meta.height > 0 {
      var p := GoodParent(env, w, b);
      GoodLists(env, w, p);
      RerunKeepsEntries(env, b.book.txs, p, w.genesis.book.balances);
    }
  }

  /** Nothing older than the genesis block is ever stored, so its parent is not. */
  lemma {:induction false} GoodIsYounger(env: Env, w: World, b: BlockVal)
    requires Ideal(env) && Good(env, w, b)
    ensures env.age(w.genesis.meta.prev) < env.age(HashOf(env, b))
    decreases b.meta.height
  {
    assert env.age(b.meta.prev) < env.age(HashOf(env, b));
    if b.meta.height > 0 {
      var p := GoodParent(env, w, b);
      GoodIsYounger(env, w, p);
      LinkNames(env, p, b);
    }
  }

  lemma RewardIsCoinbase(env: Env, w: World, b: BlockVal)
    requires Lawful(env, w) && Good(env, w, b)
    ensures Reward(b, b.meta.rewardAddr) <= if b.meta.height == 0 then 0 else w.coinbase
  {
    if b.meta.height > 0 { var _ := GoodParent(env, w, b); }
  }

  /** An honest header determines its whole block, ledger included. */
  lemma {:induction false} GoodUnique(env: Env, w: World, a: BlockVal, b: BlockVal)
    requires Ideal(env) && Good(env, w, a) && Good(env, w, b) && HashOf(env, a) == HashOf(env, b)
    ensures a == b
    decreases a.meta.height
  {
    SameHash(env, a, b);
    if a.meta.height > 0 {
      GoodUnique(env, w, GoodParent(env, w, a), GoodParent(env, w, b));
    }
  }

  /** The honest block behind a header. */
  ghost function Settled(env: Env, w: World, b: BlockVal): (g: BlockVal)
    requires Genuine(env, w, b)
    ensures Good(env, w, g) && g.meta == b.meta && g.book.txs == b.book.txs && HashOf(env, g) == HashOf(env, b)
  {
    var book: Book :| book.txs == b.book.txs && Good(env, w, BlockVal(b.meta, book));
    BlockVal(b.meta, book)
  }

  lemma GoodIsGenuine(env: Env, w: World, b: BlockVal)
    requires Good(env, w, b)
    ensures Genuine(env, w, b)
  {
    assert Good(env, w, BlockVal(b.meta, b.book));
  }

  // ---------------------------------------------------------------- honest nodes

  ghost predicate HonestNode(env: Env, w: World, n: NodeVal) {
    && NodeInv(env, n)
    && HashOf(env, w.genesis) in n.blocks
    && (forall h :: h in n.blocks ==> Good(env, w, n.blocks[h]))
    && (forall k, id :: k in n.parked && id in n.parked[k] ==> Genuine(env, w, n.parked[k][id]))
  }

  lemma FreshIsHonest(env: Env, w: World, address: Address, key: string, config: Config)
    requires w.genesis.meta.height == 0
    ensures HonestNode(env, w, Fresh(env, address, key, config, w.genesis))
  {
    FreshInv(env, address, key, config, w.genesis);
    hide NodeInv;
    assert Good(env, w, w.genesis);
    hide HashOf;
    hide Good;
  }

  lemma GenesisIsStored(env: Env, w: World, n: NodeVal)
    requires Ideal(env) && HonestNode(env, w, n)
    requires w.genesis.meta.height == 0
    ensures n.blocks[HashOf(env, w.genesis)] == w.genesis
  {
    var b := n.blocks[HashOf(env, w.genesis)];
    assert HashOf(env, b) == HashOf(env, w.genesis);
    SameHash(env, b, w.genesis);
    assert Good(env, w, b);
  }

  /** What becomes of an honest block at an honest node: known blocks are dropped, orphans wait for
      their parent, and every other block is stored under its own hash with the one ledger it can
      have. It is never refused and never crashes the node. */
  lemma HonestReceipt(env: Env, w: World, n: NodeVal, b: BlockVal)
    requires Lawful(env, w) && HonestNode(env, w, n) && Genuine(env, w, b)
    ensures var g, r := Settled(env, w, b), Receive(env, n, b);
            if HashOf(env, b) in n.blocks then r == (n, Dropped)
            else b.meta.height > 0 && if b.meta.prev !in n.blocks then r == Park(env, n, b)
            else r == Keep(env, n, g) && GoodLink(env, w, n.blocks[b.meta.prev], g)
  {
    hide Keep;
    hide Park;
    hide NodeInv;
    hide Rerun;
    hide HasValidProof;
    var g := Settled(env, w, b);
    if b.meta.height == 0 {
      assert HashOf(env, b) == HashOf(env, w.genesis);
    } else {
      var p := GoodParent(env, w, g);
      ProofIsHeaders(env, g, b);
      if b.meta.prev in n.blocks {
        var q := n.blocks[b.meta.prev];
        assert HashOf(env, q) == b.meta.prev by { KeyIsHash(env, n, b.meta.prev); }
        GoodUnique(env, w, p, q);
        assert BlockVal(b.meta, g.book) == g;
      }
    }
  }

  lemma KeyIsHash(env: Env, n: NodeVal, h: Hash)
    requires NodeInv(env, n) && h in n.blocks
    ensures HashOf(env, n.blocks[h]) == h
  {
  }

  lemma ProofIsHeaders(env: Env, a: BlockVal, b: BlockVal)
    requires a.meta == b.meta && a.book.txs == b.book.txs
    ensures HasValidProof(env, a) <==> HasValidProof(env, b)
  {
  }

  lemma HonestKeep(env: Env, w: World, n: NodeVal, g: BlockVal)
    requires Lawful(env, w) && HonestNode(env, w, n) && Good(env, w, g) && g.meta.height > 0
    requires HashOf(env, g) !in n.blocks && g.meta.prev in n.blocks && Link(env, n.blocks[g.meta.prev], g)
    ensures HonestNode(env, w, Keep(env, n, g).0)
    ensures forall id :: id in Keep(env, n, g).1.freed ==> Genuine(env, w, Keep(env, n, g).1.freed[id])
  {
    hide Good;
    hide Genuine;
    hide NodeInv;
    hide Link;
    assert Fileable(env, n.blocks, g);
    KeepKeepsInv(env, n, g);
    hide SetLastConfirmed;
    hide HashOf;
  }

  lemma HonestPark(env: Env, w: World, n: NodeVal, b: BlockVal)
    requires HonestNode(env, w, n) && Genuine(env, w, b)
    requires b.meta.height > 0 && HasValidProof(env, b) && b.meta.prev !in n.blocks
    ensures HonestNode(env, w, Park(env, n, b).0)
  {
    hide Good;
    hide Genuine;
    hide NodeInv;
    hide HasValidProof;
    ParkKeepsInv(env, n, b);
    hide HashOf;
  }

  /** Honest blocks keep honest nodes honest, and so are all blocks a node sets free. */
  lemma HonestReceive(env: Env, w: World, n: NodeVal, b: BlockVal)
    requires Lawful(env, w) && HonestNode(env, w, n) && Genuine(env, w, b)
    ensures HonestNode(env, w, Receive(env, n, b).0)
    ensures !Receive(env, n, b).1.Crashed?
    ensures Receive(env, n, b).1.Stored? ==>
              && Good(env, w, Receive(env, n, b).1.block)
              && HashOf(env, Receive(env, n, b).1.block) == HashOf(env, b)
              && forall id :: id in Receive(env, n, b).1.freed ==> Genuine(env, w, Receive(env, n, b).1.freed[id])
  {
    hide Receive;
    hide HonestNode;
    hide Lawful;
    hide Good;
    hide Rerun;
    HonestReceipt(env, w, n, b);
    if HashOf(env, b) !in n.blocks {
      var g := Settled(env, w, b);
      if b.meta.prev in n.blocks {
        KeepStores(env, n, g);
        HonestKeep(env, w, n, g);
      } else {
        ProofOfGenuine(env, w, b);
        ParkParks(env, n, b);
        HonestPark(env, w, n, b);
      }
    }
  }

  lemma ProofOfGenuine(env: Env, w: World, b: BlockVal)
    requires Genuine(env, w, b) && b.meta.height > 0
    ensures HasValidProof(env, b)
  {
    var g := Settled(env, w, b);
    var _ := GoodParent(env, w, g);
    ProofIsHeaders(env, g, b);
  }

  /** On an honest node heights are positions: the block at height k of any ancestry is its k-th. */
  lemma {:induction false} HeightsArePositions(env: Env, w: World, n: NodeVal, b: BlockVal)
    requires Lawful(env, w) && HonestNode(env, w, n) && HashOf(env, b) in n.blocks && n.blocks[HashOf(env, b)] == b
    ensures Rooted(n.blocks, b) && |Ancestry(n.blocks, b)| == b.meta.height as nat + 1
    ensures forall i :: 0 <= i < |Ancestry(n.blocks, b)| ==> Ancestry(n.blocks, b)[i].meta.height == i
    ensures Ancestry(n.blocks, b)[0] == w.genesis
    decreases b.meta.height
  {
    hide Rooted;
    hide Link;
    hide ParkedInv;
    hide TipInv;
    assert Good(env, w, n.blocks[HashOf(env, b)]);
    if b.meta.height == 0 {
      AncestryOfRoot(n.blocks, b);
    } else {
      var p := GoodParent(env, w, b);
      var q := n.blocks[b.meta.prev] by { assert HashOf(env, b) in n.blocks; }
      assert HashOf(env, q) == b.meta.prev && Good(env, w, q);
      assert HashOf(env, p) == b.meta.prev by { LinkNames(env, p, b); }
      GoodUnique(env, w, p, q);
      HeightsArePositions(env, w, n, q);
      AncestryOfChild(n.blocks, b);
    }
  }

  lemma GenesisHasNoParent(env: Env, w: World, n: NodeVal)
    requires Ideal(env) && HonestNode(env, w, n)
    ensures w.genesis.meta.prev !in n.blocks
  {
    var h := w.genesis.meta.prev;
    if h in n.blocks {
      KeyIsHash(env, n, h);
      GoodIsYounger(env, w, n.blocks[h]);
    }
  }

  lemma LinkNames(env: Env, p: BlockVal, b: BlockVal)
    requires Link(env, p, b)
    ensures b.meta.prev == HashOf(env, p)
  {
  }
}
