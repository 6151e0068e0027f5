/** What becomes of the gold of one address, along replays, chains and stores. */
module Accounts {
  import opened Prelude
  import opened Ledger
  import opened Chains
  import opened Store
  import opened Honest
  import opened Mining
  import opened Forks

  /** What the address pays in its own transactions, fees included. */
  function Debits(txs: seq<TxEntry>, a: Address): nat {
    if txs == [] then 0
    else
      var t := txs[|txs| - 1].tx;
      Debits(txs[..|txs| - 1], a) + if t.info.from == a then Paid(t.info.outputs) + t.info.fee else 0
  }

  /** What the address is paid in anybody's transactions, its own included. */
  function Credits(txs: seq<TxEntry>, a: Address): nat {
    if txs == [] then 0
    else Credits(txs[..|txs| - 1], a) + PaidTo(txs[|txs| - 1].tx.info.outputs, a)
  }

  /** The coinbases paid to the address: one for every proper ancestor of the tip that names it as payee. */
  function Earned(ch: seq<BlockVal>, a: Address): nat {
    if |ch| <= 1 then 0
    else
      var p := ch[|ch| - 2];
      Earned(ch[..|ch| - 1], a) + if a != "" && p.meta.rewardAddr == a then p.meta.coinbase else 0
  }

  lemma {:induction false} DebitsConcat(s: seq<TxEntry>, t: seq<TxEntry>, a: Address)
    ensures Debits(s + t, a) == Debits(s, a) + Debits(t, a)
    ensures Credits(s + t, a) == Credits(s, a) + Credits(t, a)
  {
    if t == [] {
      assert s + t == s;
    } else {
      DebitsConcat(s, t[..|t| - 1], a);
      assert (s + t)[..|s + t| - 1] == s + t[..|t| - 1];
    }
  }

  /** One accepted transaction: the cost leaves its sender, the outputs reach their addresses. */
  lemma ApplyMoves(env: Env, book: Book, tx: Transaction, a: Address)
    requires Apply(env, book, tx).Accepted?
    ensures var cost := if tx.info.from == a then Paid(tx.info.outputs) + tx.info.fee else 0;
            var after := Get(Apply(env, book, tx).book.balances, a);
            && Congruent(after, Get(book.balances, a) - cost + PaidTo(tx.info.outputs, a))
            && (Total(book.balances) < 0x1_0000_0000 && Cost(tx) < 0x1_0000_0000 ==>
                  after == Get(book.balances, a) - cost + PaidTo(tx.info.outputs, a))
  {
    hide Apply;
    hide Get;
    hide Total;
    hide PaidTo;
    hide Paid;
    hide Has;
    hide Acceptable;
    ApplyRefinesMaps(env, book, tx);
    if Total(book.balances) < 0x1_0000_0000 && Cost(tx) < 0x1_0000_0000 { ApplyIsExact(env, book, tx, a); }
  }

  lemma {:induction false} ReplayMoves(env: Env, book: Book, txs: seq<TxEntry>, a: Address)
    requires Replay(env, book, txs).Accepted?
    ensures var after := Get(Replay(env, book, txs).book.balances, a);
            && Congruent(after, Get(book.balances, a) - Debits(txs, a) + Credits(txs, a))
            && (Total(book.balances) < 0x1_0000_0000 && NoneOverflows(txs) ==>
                  after == Get(book.balances, a) - Debits(txs, a) + Credits(txs, a))
    decreases |txs|
  {
    hide Apply;
    hide Get;
    hide Total;
    hide PaidTo;
    hide Paid;
    hide Congruent;
    hide Fees;
    CongruentSelf(Get(book.balances, a));
    if txs != [] {
      var front, e := txs[..|txs| - 1], txs[|txs| - 1];
      assert txs == front + [e];
      ReplayAppend(env, book, front, e);
      ReplayMoves(env, book, front, a);
      ReplayConserves(env, book, front);
      var mid := Replay(env, book, front).book;
      ApplyMoves(env, mid, e.tx, a);
      var d: int := PaidTo(e.tx.info.outputs, a) - if e.tx.info.from == a then Paid(e.tx.info.outputs) + e.tx.info.fee else 0;
      CongruentAdd(Get(mid.balances, a), Get(book.balances, a) - Debits(front, a) + Credits(front, a), d);
      CongruentTrans(Get(Apply(env, mid, e.tx).book.balances, a), Get(mid.balances, a) + d,
                     Get(book.balances, a) - Debits(front, a) + Credits(front, a) + d);
    }
  }

  /** One block: the parent's coinbase if the address is its payee, and the transactions of the block. */
  lemma BlockMoves(env: Env, p: BlockVal, b: BlockVal, a: Address)
    requires Link(env, p, b)
    ensures var coinbase := if a != "" && p.meta.rewardAddr == a then p.meta.coinbase else 0;
            var due := Get(p.book.balances, a) + coinbase - Debits(b.book.txs, a) + Credits(b.book.txs, a);
            && Congruent(Get(b.book.balances, a), due)
            && (Total(p.book.balances) + Reward(p, p.meta.rewardAddr) < 0x1_0000_0000 && NoneOverflows(b.book.txs) ==>
                  Get(b.book.balances, a) == due)
  {
    hide Get;
    hide Total;
    hide Replay;
    hide Rewarded;
    hide Congruent;
    hide NoneOverflows;
    hide Wrap;
    LinkIsReplay(env, p, b);
    RewardedIs(p);
    if Roomy(p) { RewardFits(p, a); }
    ReplayMoves(env, Base(p), b.book.txs, a);
    var had := Get(p.book.balances, a) + Reward(p, a);
    WrapIs(had);
    var d := Credits(b.book.txs, a) - Debits(b.book.txs, a);
    CongruentAdd(Wrap(had), had, d);
    CongruentTrans(Get(b.book.balances, a), Wrap(had) + d, had + d);
  }

  /** Along any chain the balance of an address is what it had at the root, plus the coinbases paid to it, minus
      what it paid, plus what it was paid: modulo 2^32 always, as integers when supply and costs fit. */
  lemma {:induction false} ChainMoves(env: Env, ch: seq<BlockVal>, a: Address)
    requires Chain(env, ch)
    ensures var txs := History(ch);
            var due := Get(ch[0].book.balances, a) + Earned(ch, a) - Debits(txs, a) + Credits(txs, a);
            && Congruent(Get(Tip(ch).book.balances, a), due)
            && (Total(ch[0].book.balances) + Rewards(ch) < 0x1_0000_0000 && NoneOverflows(txs) ==>
                  Get(Tip(ch).book.balances, a) == due)
    decreases |ch|
  {
    hide Get;
    hide Total;
    hide Rerun;
    hide Congruent;
    hide Fees;
    hide Debits;
    hide Credits;
    if |ch| > 1 {
      var front, b := ch[..|ch| - 1], Tip(ch);
      var p := Tip(front);
      ChainPrefix(env, ch, |ch| - 1);
      ChainMoves(env, front, a);
      ChainConserves(env, front);
      assert Link(env, p, b);
      BlockMoves(env, p, b, a);
      DebitsConcat(History(front), b.book.txs, a);
      if NoneOverflows(History(ch)) {
        assert forall e :: e in History(front) ==> e in History(ch);
        assert forall e :: e in b.book.txs ==> e in History(ch);
      }
      var d: int := (if a != "" && p.meta.rewardAddr == a then p.meta.coinbase else 0) - Debits(b.book.txs, a) + Credits(b.book.txs, a);
      var due := Get(ch[0].book.balances, a) + Earned(front, a) - Debits(History(front), a) + Credits(History(front), a);
      CongruentAdd(Get(p.book.balances, a), due, d);
      CongruentTrans(Get(b.book.balances, a), Get(p.book.balances, a) + d, due + d);
    } else {
      NothingMoves(a);
      CongruentSelf(Get(ch[0].book.balances, a));
    }
  }

  lemma NothingMoves(a: Address)
    ensures Debits([], a) == 0 && Credits([], a) == 0
  {
  }

  /** On an honest node the balance of an address in any stored block is exactly its genesis balance, plus the
      coinbases and payments it got, minus what it paid, along the block's ancestry. */
  lemma {:induction false} HonestBalance(env: Env, w: World, n: NodeVal, b: BlockVal, a: Address)
    requires Lawful(env, w) && HonestNode(env, w, n) && HashOf(env, b) in n.blocks && n.blocks[HashOf(env, b)] == b
    ensures var ch := Ancestry(n.blocks, b);
            Get(b.book.balances, a)
            == Get(w.genesis.book.balances, a) + Earned(ch, a) - Debits(History(ch), a) + Credits(History(ch), a)
    decreases b.meta.height
  {
    hide Get;
    hide Rooted;
    hide Total;
    hide Rerun;
    hide ParkedInv;
    hide TipInv;
    hide Debits;
    hide Credits;
    hide Ancestry;
    HeightsArePositions(env, w, n, b);
    assert Good(env, w, n.blocks[HashOf(env, b)]);
    var ch := Ancestry(n.blocks, b);
    if b.meta.height == 0 {
      NothingMoves(a);
    } else {
      var q := StoredParentOf(env, w, n, b);
      HonestBalance(env, w, n, q, a);
      SupplyBound(env, w, q);
      SoundFits(w.genesis.book.balances, b.book.txs);
      BlockMoves(env, q, b, a);
      var front := Ancestry(n.blocks, q);
      assert ch == front + [b] && Tip(front) == q;
      assert ch[..|ch| - 1] == front;
      DebitsConcat(History(front), b.book.txs, a);
    }
  }

  /** The stored parent of a stored block. */
  lemma StoredParentOf(env: Env, w: World, n: NodeVal, b: BlockVal) returns (q: BlockVal)
    requires Lawful(env, w) && HonestNode(env, w, n) && HashOf(env, b) in n.blocks && n.blocks[HashOf(env, b)] == b
    requires b.meta.height > 0
    ensures HashOf(env, q) in n.blocks && n.blocks[HashOf(env, q)] == q && q.meta.height < b.meta.height
    ensures Good(env, w, q) && GoodLink(env, w, q, b)
    ensures Ancestry(n.blocks, b) == Ancestry(n.blocks, q) + [b]
  {
    hide Rooted;
    hide Link;
    hide ParkedInv;
    hide TipInv;
    assert Good(env, w, n.blocks[HashOf(env, b)]);
    var p := GoodParent(env, w, b);
    LinkNames(env, p, b);
    assert HashOf(env, b) in n.blocks;
    q := n.blocks[b.meta.prev];
    assert HashOf(env, q) == b.meta.prev && Good(env, w, q);
    IdealOf(env, w);
    GoodUnique(env, w, p, q);
    HeightsArePositions(env, w, n, q);
    AncestryOfChild(n.blocks, b);
  }

  // ---------------------------------------------------------------- whom a new block pays

  /** What a new search makes: a block on the tip, one higher, under the configured target or else the tip's, made
      now, that pays the configured coinbase to the miner; and an empty pool. */
  lemma NewSearchIs(env: Env, n: NodeVal, order: seq<Transaction>, now: int)
    requires StartNewSearch(env, n, order, now).Some?
    ensures var m := StartNewSearch(env, n, order, now).value;
            && m.current.Some? && m == n.(current := m.current, pool := {})
            && var c := m.current.value.meta;
               && c.prev == env.blockHash(Header(n.last.meta, n.last.book.txs))
               && c.height == (n.last.meta.height + 1) % 0x1_0000_0000
               && c.rewardAddr == n.address && c.coinbase == n.config.coinbase
               && c.proof == 0 && c.timestamp == now
               && c.target == if n.config.target.Some? then n.config.target.value else n.last.meta.target
  {
    hide Assemble;
  }

  /** Its proofs are valid exactly if they bring its hash below that target. */
  lemma NewSearchIsSolvedIff(env: Env, n: NodeVal, order: seq<Transaction>, now: int, proof: u32)
    requires StartNewSearch(env, n, order, now).Some?
    ensures var c := StartNewSearch(env, n, order, now).value.current;
            && c.Some?
            && var h := env.magnitude(env.blockHash(Header(c.value.meta.(proof := proof), c.value.book.txs)));
               HasValidProof(env, WithProof(c.value, proof)) <==>
                 match n.config.target case Some(t) => h < t case None => h < n.last.meta.target
  {
    hide Assemble;
  }

  /** The block that the network stores for a miner's proved block. */
  function SettledOn(env: Env, p: BlockVal, c: BlockVal): BlockVal {
    match Rerun(env, c.book.txs, p)
    case Accepted(book) => BlockVal(c.meta, book)
    case _ => c
  }

  /** Any child of that block pays its miner: the miner's address gains the configured coinbase on top of what the
      child's transactions take and bring, and no other address gains anything on top. */
  lemma MinerIsPaid(env: Env, n: NodeVal, order: seq<Transaction>, now: int, proof: u32, d: BlockVal, a: Address)
    requires StartNewSearch(env, n, order, now).Some? && StartNewSearch(env, n, order, now).value.current.Some?
    requires Link(env, SettledOn(env, n.last, WithProof(StartNewSearch(env, n, order, now).value.current.value, proof)), d)
    ensures var g := SettledOn(env, n.last, WithProof(StartNewSearch(env, n, order, now).value.current.value, proof));
            var paid := if a == n.address && a != "" then n.config.coinbase else 0;
            var due := Get(g.book.balances, a) + paid - Debits(d.book.txs, a) + Credits(d.book.txs, a);
            && Congruent(Get(d.book.balances, a), due)
            && (Total(g.book.balances) + n.config.coinbase < 0x1_0000_0000 && NoneOverflows(d.book.txs) ==>
                  Get(d.book.balances, a) == due)
  {
    hide StartNewSearch;
    hide Rerun;
    hide Get;
    hide Total;
    hide NoneOverflows;
    hide Congruent;
    hide Link;
    NewSearchIs(env, n, order, now);
    var c := WithProof(StartNewSearch(env, n, order, now).value.current.value, proof);
    BlockMoves(env, SettledOn(env, n.last, c), d, a);
  }
}
