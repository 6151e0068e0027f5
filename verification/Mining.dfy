/** Assembling, proving and announcing a block, and moving a miner to another branch. */
module Mining {
  import opened Prelude
  import opened Ledger
  import opened Chains
  import opened Store
  import opened Honest

  // ---------------------------------------------------------------- assembling a block

  /** The block NewBlock returns: the parent's ledger, as it stands, and no transactions. */
  function NewBlock(env: Env, address: Address, parent: BlockVal, target: nat, coinbase: u32, now: int): BlockVal {
    BlockVal(Meta(HashOf(env, parent), target, 0, Wrap(parent.meta.height + 1), now, address, coinbase),
             Book([], parent.book.balances, parent.book.nonces))
  }

  /** Offers the transactions one after the other; None where the program panics. */
  function Assemble(env: Env, book: Book, txs: seq<Transaction>): Option<Book>
    decreases |txs|
  {
    if txs == [] then Some(book)
    else
      match Apply(env, book, txs[0])
      case Accepted(b) => Assemble(env, b, txs[1..])
      case Rejected(b) => Assemble(env, b, txs[1..])
      case Panic => None
  }

  /** Some transaction panics the program once those before it have been offered. */
  ghost predicate PoolPanics(env: Env, book: Book, order: seq<Transaction>) {
    exists i :: 0 <= i < |order| && PanicsAt(env, book, order, i)
  }

  ghost predicate PanicsAt(env: Env, book: Book, order: seq<Transaction>, i: nat)
    requires i < |order|
  {
    Assemble(env, book, order[..i]).Some? && Apply(env, Assemble(env, book, order[..i]).value, order[i]).Panic?
  }

  lemma {:induction false} AssemblePanicsIff(env: Env, book: Book, order: seq<Transaction>)
    ensures Assemble(env, book, order).None? <==> PoolPanics(env, book, order)
    decreases |order|
  {
    hide Apply;
    if order != [] {
      var first := Apply(env, book, order[0]);
      assert order[..0] == [];
      assert first.Panic? <==> PanicsAt(env, book, order, 0);
      if !first.Panic? {
        AssemblePanicsIff(env, first.book, order[1..]);
        forall i | 0 < i < |order| ensures PanicsAt(env, book, order, i) <==> PanicsAt(env, first.book, order[1..], i - 1) {
          assert order[..i][1..] == order[1..][..i - 1] && order[..i][0] == order[0];
        }
        if PoolPanics(env, first.book, order[1..]) {
          var j :| 0 <= j < |order[1..]| && PanicsAt(env, first.book, order[1..], j);
          assert PanicsAt(env, book, order, j + 1);
        }
      }
    }
  }

  /** What the rest of the network computes for this book on top of p: the same transactions under the
      same ids, the same next-nonces, and the same balances but for p's reward, which is added. */
  ghost predicate Announceable(env: Env, p: BlockVal, book: Book) {
    && Rerun(env, book.txs, p).Accepted?
    && var r := Rerun(env, book.txs, p).book;
       && r.txs == book.txs
       && (forall a :: Get(r.balances, a) == Get(book.balances, a) + Reward(p, a))
       && (forall a :: Get(r.nonces, a) == Get(book.nonces, a))
  }

  /** The parent's supply has room for its reward. */
  ghost predicate Roomy(p: BlockVal) {
    Total(p.book.balances) + Reward(p, p.meta.rewardAddr) < 0x1_0000_0000
  }

  lemma EmptyIsAnnounceable(env: Env, p: BlockVal)
    requires Roomy(p)
    ensures Announceable(env, p, Book([], p.book.balances, p.book.nonces))
  {
    hide Total;
    hide Get;
    hide Wrap;
    RewardedIs(p);
    forall a ensures Get(Rewarded(p), a) == Get(p.book.balances, a) + Reward(p, a) {
      RewardFits(p, a);
    }
    hide Rewarded;
  }

  lemma RewardFits(p: BlockVal, a: Address)
    requires Roomy(p)
    ensures Wrap(Get(p.book.balances, a) + Reward(p, a)) == Get(p.book.balances, a) + Reward(p, a)
  {
    hide Get;
    hide Total;
    hide Put;
    PutTotal(p.book.balances, a, 0);
  }

  lemma ReplayStaysRoomy(env: Env, p: BlockVal, payers: seq<Entry>, txs: seq<TxEntry>)
    requires Roomy(p) && AllSound(payers, txs) && Rerun(env, txs, p).Accepted?
    ensures Total(Rerun(env, txs, p).book.balances) < 0x1_0000_0000
  {
    hide Total;
    hide Rewarded;
    hide Replay;
    SoundFits(payers, txs);
    RewardedIs(p);
    ReplayConserves(env, Base(p), txs);
  }

  /** Richer books accept more: r is c with the reward of p added. */
  ghost predicate Richer(p: BlockVal, c: Book, r: Book) {
    && r.txs == c.txs
    && (forall a :: Get(r.balances, a) == Get(c.balances, a) + Reward(p, a))
    && (forall a :: Get(r.nonces, a) == Get(c.nonces, a))
  }

  lemma RicherAccepts(env: Env, p: BlockVal, c: Book, r: Book, payers: seq<Entry>, tx: Transaction)
    requires Richer(p, c, r) && Total(r.balances) < 0x1_0000_0000 && Sound(payers, tx) && Lists(payers, r.balances)
    requires Apply(env, c, tx).Accepted?
    ensures Apply(env, r, tx).Accepted?
  {
    hide Apply;
    hide Contains;
    hide Get;
    hide Total;
    hide Has;
    hide Cost;
    ApplyRefinesMaps(env, c, tx);
    ApplyRefinesMaps(env, r, tx);
    WrapIs(Cost(tx));
    AbsentIsZero(r.balances, tx.info.from);
  }

  lemma RicherBalance(env: Env, p: BlockVal, c: Book, r: Book, tx: Transaction, a: Address)
    requires Richer(p, c, r) && Total(r.balances) < 0x1_0000_0000 && Cost(tx) < 0x1_0000_0000
    requires Apply(env, c, tx).Accepted? && Apply(env, r, tx).Accepted?
    ensures Get(Apply(env, r, tx).book.balances, a) == Get(Apply(env, c, tx).book.balances, a) + Reward(p, a)
  {
    hide Apply;
    hide Contains;
    hide Get;
    hide Total;
    hide Has;
    hide PaidTo;
    hide Wrap;
    hide Cost;
    ApplyRefinesMaps(env, c, tx);
    ApplyIsExact(env, r, tx, a);
    var after := Get(c.balances, a) - Debit(tx, a) + PaidTo(tx.info.outputs, a);
    assert 0 <= after < 0x1_0000_0000;
    WrapIs(after);
  }

  lemma RicherStaysRicher(env: Env, p: BlockVal, c: Book, r: Book, payers: seq<Entry>, tx: Transaction)
    requires Richer(p, c, r) && Total(r.balances) < 0x1_0000_0000 && Sound(payers, tx) && Lists(payers, r.balances)
    requires Apply(env, c, tx).Accepted?
    ensures Apply(env, r, tx).Accepted?
    ensures Richer(p, Apply(env, c, tx).book, Apply(env, r, tx).book)
  {
    hide Apply;
    hide Contains;
    hide Get;
    hide Total;
    hide Has;
    hide PaidTo;
    hide Wrap;
    hide Cost;
    RicherAccepts(env, p, c, r, payers, tx);
    ApplyRefinesMaps(env, c, tx);
    ApplyRefinesMaps(env, r, tx);
    forall a ensures Get(Apply(env, r, tx).book.balances, a) == Get(Apply(env, c, tx).book.balances, a) + Reward(p, a) {
      RicherBalance(env, p, c, r, tx, a);
    }
  }

  /** Offering one more sound transaction neither panics nor spoils the block. */
  lemma OfferKeepsAnnounceable(env: Env, p: BlockVal, book: Book, payers: seq<Entry>, tx: Transaction)
    requires Roomy(p) && AllSound(payers, book.txs) && Announceable(env, p, book) && Sound(payers, tx)
    requires Lists(payers, p.book.balances) && Lists(payers, book.balances)
    ensures !Apply(env, book, tx).Panic?
    ensures Announceable(env, p, Apply(env, book, tx).book) && AllSound(payers, Apply(env, book, tx).book.txs)
    ensures Lists(payers, Apply(env, book, tx).book.balances)
  {
    hide Apply;
    hide Get;
    hide Has;
    hide Contains;
    hide Replay;
    hide Roomy;
    hide Cost;
    var r := Rerun(env, book.txs, p).book;
    ReplayStaysRoomy(env, p, payers, book.txs);
    RerunKeepsEntries(env, book.txs, p, payers);
    ApplyRefinesMaps(env, book, tx);
    WrapIs(Cost(tx));
    if Apply(env, book, tx).Accepted? {
      RicherStaysRicher(env, p, book, r, payers, tx);
      ReplayAppend(env, Base(p), book.txs, TxEntry(IdOf(env, tx), tx));
    }
  }

  lemma {:induction false} AssembleIsAnnounceable(env: Env, p: BlockVal, book: Book, payers: seq<Entry>, txs: seq<Transaction>)
    requires Roomy(p) && AllSound(payers, book.txs) && Announceable(env, p, book)
    requires Lists(payers, p.book.balances) && Lists(payers, book.balances)
    requires forall tx :: tx in txs ==> Sound(payers, tx)
    ensures Assemble(env, book, txs).Some?
    ensures Announceable(env, p, Assemble(env, book, txs).value)
    ensures AllSound(payers, Assemble(env, book, txs).value.txs)
    decreases |txs|
  {
    hide Apply;
    hide Announceable;
    hide Roomy;
    hide AllSound;
    hide Sound;
    hide Lists;
    if txs != [] {
      assert Sound(payers, txs[0]);
      OfferKeepsAnnounceable(env, p, book, payers, txs[0]);
      AssembleIsAnnounceable(env, p, Apply(env, book, txs[0]).book, payers, txs[1..]);
    }
  }

  // ---------------------------------------------------------------- what a new block keeps of one sender

  /** The transactions of a that a block takes when it is offered them in this order: each must carry the next
      nonce when its turn comes. */
  function Kept(order: seq<Transaction>, a: Address, next: u32): seq<Transaction> {
    if order == [] then []
    else if order[0].info.from == a && order[0].info.nonce == next then [order[0]] + Kept(order[1..], a, Wrap(next + 1))
    else Kept(order[1..], a, next)
  }

  function OwnIn(order: seq<Transaction>, a: Address): seq<Transaction> {
    if order == [] then []
    else (if order[0].info.from == a then [order[0]] else []) + OwnIn(order[1..], a)
  }

  /** The transactions of a in a block, in order. */
  function TakenOf(txs: seq<TxEntry>, a: Address): seq<Transaction> {
    if txs == [] then []
    else TakenOf(txs[..|txs| - 1], a) + if txs[|txs| - 1].tx.info.from == a then [txs[|txs| - 1].tx] else []
  }

  function CostOf(order: seq<Transaction>, a: Address): nat {
    if order == [] then 0
    else (if order[0].info.from == a then Cost(order[0]) else 0) + CostOf(order[1..], a)
  }

  /** Nothing but nonces stands in the way of a's transactions: no two are the same, none is in the block,
      all are signed, and the sender can pay for all of them. */
  ghost predicate OnlyNonces(env: Env, book: Book, order: seq<Transaction>, a: Address) {
    && Total(book.balances) < 0x1_0000_0000
    && (forall i, j :: 0 <= i < j < |order| ==> order[i] != order[j])
    && (forall t :: t in order ==> Cost(t) < 0x1_0000_0000)
    && (forall t :: t in order && t.info.from == a ==> t.sig.Some? && Verified(env, t) && !Contains(env, book.txs, t))
    && CostOf(order, a) <= Get(book.balances, a)
  }

  lemma OfferKeepsOnlyNonces(env: Env, book: Book, order: seq<Transaction>, a: Address)
    requires Ideal(env) && order != [] && OnlyNonces(env, book, order, a) && !Apply(env, book, order[0]).Panic?
    ensures OnlyNonces(env, Apply(env, book, order[0]).book, order[1..], a)
  {
    hide Apply;
    hide Get;
    hide Total;
    hide PaidTo;
    hide Has;
    hide Cost;
    hide Contains;
    var t := order[0];
    var after := Apply(env, book, t).book;
    WrapIs(Cost(t));
    ApplyRefinesMaps(env, book, t);
    if Apply(env, book, t).Accepted? {
      ApplyConserves(env, book, t);
      ApplyIsExact(env, book, t, a);
    }
    forall u | u in order[1..] && u.info.from == a ensures !Contains(env, after.txs, u) {
      ContainsOneMore(env, book.txs, t, u);
    }
  }

  lemma ContainsOneMore(env: Env, txs: seq<TxEntry>, t: Transaction, u: Transaction)
    requires Ideal(env) && t != u
    ensures Contains(env, txs + [TxEntry(IdOf(env, t), t)], u) ==> Contains(env, txs, u)
  {
    var more := txs + [TxEntry(IdOf(env, t), t)];
    if Contains(env, more, u) {
      var i :| 0 <= i < |more| && more[i].id == IdOf(env, u);
      if i == |txs| { SameId(env, t, u); }
      assert more[i] == txs[i];
    }
  }

  lemma OfferTakes(env: Env, book: Book, order: seq<Transaction>, a: Address)
    requires order != [] && OnlyNonces(env, book, order, a) && !Apply(env, book, order[0]).Panic?
    ensures var t, after := order[0], Apply(env, book, order[0]).book;
            var kept := t.info.from == a && t.info.nonce == Get(book.nonces, a);
            && TakenOf(after.txs, a) == TakenOf(book.txs, a) + (if kept then [t] else [])
            && Get(after.nonces, a) == if kept then Wrap(Get(book.nonces, a) + 1) else Get(book.nonces, a)
  {
    hide Apply;
    hide Get;
    hide Total;
    hide PaidTo;
    hide Has;
    hide Cost;
    hide Contains;
    var t := order[0];
    WrapIs(Cost(t));
    ApplyRefinesMaps(env, book, t);
    assert (book.txs + [TxEntry(IdOf(env, t), t)])[..|book.txs|] == book.txs;
  }

  lemma {:induction false} AssembleKeeps(env: Env, book: Book, order: seq<Transaction>, a: Address)
    requires Ideal(env) && OnlyNonces(env, book, order, a) && Assemble(env, book, order).Some?
    ensures TakenOf(Assemble(env, book, order).value.txs, a)
            == TakenOf(book.txs, a) + Kept(order, a, Get(book.nonces, a))
    decreases |order|
  {
    hide Apply;
    hide OnlyNonces;
    hide TakenOf;
    hide Get;
    if order != [] {
      var next := Apply(env, book, order[0]).book;
      OfferKeepsOnlyNonces(env, book, order, a);
      OfferTakes(env, book, order, a);
      AssembleKeeps(env, next, order[1..], a);
    }
  }

  /** The nonces of these transactions count up from the given one. */
  ghost predicate InOrder(own: seq<Transaction>, next: u32) {
    forall i :: 0 <= i < |own| ==> own[i].info.nonce == Wrap(next + i)
  }

  /** Nothing of a is lost exactly when its transactions are offered in the order of their nonces, from the
      next one on. */
  lemma {:induction false} KeepsAllIff(order: seq<Transaction>, a: Address, next: u32)
    ensures |Kept(order, a, next)| <= |OwnIn(order, a)|
    ensures Kept(order, a, next) == OwnIn(order, a) <==> InOrder(OwnIn(order, a), next)
  {
    hide InOrder;
    hide Wrap;
    if order == [] {
      NoneIsInOrder(next);
    } else if order[0].info.from == a {
      var own, rest := OwnIn(order, a), OwnIn(order[1..], a);
      assert own[1..] == rest;
      InOrderStep(own, next);
      if order[0].info.nonce == next {
        KeepsAllIff(order[1..], a, Wrap(next + 1));
        assert Kept(order, a, next)[1..] == Kept(order[1..], a, Wrap(next + 1));
      } else {
        KeepsAllIff(order[1..], a, next);
      }
    } else {
      KeepsAllIff(order[1..], a, next);
      assert OwnIn(order, a) == OwnIn(order[1..], a);
    }
  }

  lemma NoneIsInOrder(next: u32)
    ensures InOrder([], next)
  {
  }

  lemma InOrderStep(own: seq<Transaction>, next: u32)
    requires own != []
    ensures InOrder(own, next) <==> own[0].info.nonce == next && InOrder(own[1..], Wrap(next + 1))
  {
    forall i | 0 <= i < |own| - 1 ensures own[1..][i] == own[i + 1] && Wrap(Wrap(next + 1) + i) == Wrap(next + (i + 1)) {
      WrapSum(next + 1, i);
    }
    WrapIs(next);
    hide Wrap;
    assert InOrder(own, next) ==> own[0].info.nonce == Wrap(next + 0);
    if own[0].info.nonce == next && InOrder(own[1..], Wrap(next + 1)) {
      forall i | 0 <= i < |own| ensures own[i].info.nonce == Wrap(next + i) {
        if i > 0 { assert own[i] == own[1..][i - 1]; }
      }
    }
    if InOrder(own, next) {
      forall i | 0 <= i < |own| - 1 ensures own[1..][i].info.nonce == Wrap(Wrap(next + 1) + i) {
        assert own[1..][i] == own[i + 1];
      }
    }
  }

  /** Listed senders do not panic the program. */
  lemma {:induction false} ListedAreOffered(env: Env, book: Book, order: seq<Transaction>)
    requires forall t :: t in order ==> Has(book.balances, t.info.from)
    ensures Assemble(env, book, order).Some?
    decreases |order|
  {
    hide Apply;
    hide Has;
    hide Get;
    hide Acceptable;
    if order != [] {
      assert order[0] in order;
      ApplyRefinesMaps(env, book, order[0]);
      ListedAreOffered(env, Apply(env, book, order[0]).book, order[1..]);
    }
  }

  lemma KeptOfTwo(t: Transaction, u: Transaction, a: Address, next: u32)
    requires t.info.from == u.info.from == a && t.info.nonce == next && u.info.nonce == Wrap(next + 1)
    ensures Kept([t, u], a, next) == [t, u] && Kept([u, t], a, next) == [t]
  {
    assert [t, u][1..] == [u] && [u, t][1..] == [t] && [u][1..] == [] && [t][1..] == [];
    assert Kept([u], a, Wrap(next + 1)) == [u] && Kept([t], a, next) == [t];
  }

  lemma CostOfTwo(t: Transaction, u: Transaction, a: Address)
    requires t.info.from == u.info.from == a
    ensures CostOf([t, u], a) == Cost(t) + Cost(u)
  {
    hide Cost;
    assert [t, u][1..] == [u] && [u][1..] == [];
    assert CostOf([u], a) == Cost(u);
  }

  /** Two transactions of one sender, the second with the nonce after the first: the block that is offered them
      in order takes both, and the block that is offered them in the wrong order takes the first only. */
  lemma WrongOrderLoses(env: Env, book: Book, t: Transaction, u: Transaction, a: Address)
    requires Ideal(env) && OnlyNonces(env, book, [t, u], a) && Has(book.balances, a)
    requires t.info.from == u.info.from == a
    requires t.info.nonce == Get(book.nonces, a) && u.info.nonce == Wrap(Get(book.nonces, a) + 1)
    ensures var right, wrong := Assemble(env, book, [t, u]), Assemble(env, book, [u, t]);
            && right.Some? && TakenOf(right.value.txs, a) == TakenOf(book.txs, a) + [t, u]
            && wrong.Some? && TakenOf(wrong.value.txs, a) == TakenOf(book.txs, a) + [t]
  {
    hide Assemble;
    hide TakenOf;
    hide Kept;
    hide Has;
    hide Get;
    hide Contains;
    hide Cost;
    hide Total;
    CostOfTwo(t, u, a);
    CostOfTwo(u, t, a);
    assert t == [t, u][0] && u == [t, u][1];
    assert OnlyNonces(env, book, [u, t], a);
    ListedAreOffered(env, book, [t, u]);
    ListedAreOffered(env, book, [u, t]);
    AssembleKeeps(env, book, [t, u], a);
    AssembleKeeps(env, book, [u, t], a);
    KeptOfTwo(t, u, a, Get(book.nonces, a));
  }

  // ---------------------------------------------------------------- announcing a block

  function WithProof(b: BlockVal, proof: u32): BlockVal {
    b.(meta := b.meta.(proof := proof))
  }

  /** The block a miner works on extends p. */
  ghost predicate WorksOn(env: Env, w: World, p: BlockVal, c: BlockVal) {
    && c.meta.prev == HashOf(env, p)
    && c.meta.height == p.meta.height + 1
    && c.meta.coinbase == w.coinbase
    && AllSound(w.genesis.book.balances, c.book.txs)
    && Announceable(env, p, c.book)
  }

  lemma WorkLinks(env: Env, w: World, p: BlockVal, c: BlockVal)
    requires WorksOn(env, w, p, c)
    ensures Link(env, p, BlockVal(c.meta, Rerun(env, c.book.txs, p).book))
  {
    RerunIsIdempotent(env, c.book.txs, p);
  }

  /** A block assembled on an honest tip and proved is an honest block. */
  lemma ProvedIsGenuine(env: Env, w: World, p: BlockVal, c: BlockVal)
    requires Lawful(env, w) && Good(env, w, p) && WorksOn(env, w, p, c)
    requires c.meta.height <= w.horizon && HasValidProof(env, c)
    ensures Genuine(env, w, c)
    ensures Settled(env, w, c) == BlockVal(c.meta, Rerun(env, c.book.txs, p).book)
  {
    var g := BlockVal(c.meta, Rerun(env, c.book.txs, p).book);
    WorkLinks(env, w, p, c);
    hide Rerun;
    assert g.book.txs == c.book.txs;
    ProofIsHeaders(env, g, c);
    hide Link;
    hide HasValidProof;
    assert GoodLink(env, w, p, g);
    assert Good(env, w, g);
    GoodUnique(env, w, g, Settled(env, w, c));
  }

  /** Every node that stores the parent accepts an announced block under the announced hash, whatever else it
      stores. The ledger it computes is the miner's plus the parent's reward at the parent's payee. */
  lemma AnnouncedIsAccepted(env: Env, p: BlockVal, c: BlockVal, n: NodeVal)
    requires Announceable(env, p, c.book) && c.meta.prev == HashOf(env, p) && c.meta.height > 0 && HasValidProof(env, c)
    requires HashOf(env, p) in n.blocks && n.blocks[HashOf(env, p)] == p && HashOf(env, c) !in n.blocks
    ensures var r := Receive(env, n, c).1;
            && r.Stored? && HashOf(env, r.block) == HashOf(env, c)
            && r.block.meta == c.meta && r.block.book.txs == c.book.txs
            && (forall a :: Get(r.block.book.balances, a) == Get(c.book.balances, a) + Reward(p, a))
            && (forall a :: Get(r.block.book.nonces, a) == Get(c.book.nonces, a))
  {
    hide Keep;
    hide Rerun;
    hide Get;
    hide HasValidProof;
    KeepStores(env, n, BlockVal(c.meta, Rerun(env, c.book.txs, p).book));
  }

  /** An honest node stores the very block that the header stands for. */
  lemma AnnouncedSettles(env: Env, w: World, p: BlockVal, c: BlockVal, n: NodeVal)
    requires Lawful(env, w) && Good(env, w, p) && WorksOn(env, w, p, c)
    requires c.meta.height <= w.horizon && HasValidProof(env, c)
    requires HonestNode(env, w, n) && HashOf(env, p) in n.blocks && HashOf(env, c) !in n.blocks
    ensures Genuine(env, w, c) && Receive(env, n, c).1.Stored? && Receive(env, n, c).1.block == Settled(env, w, c)
  {
    hide Receive;
    hide Lawful;
    hide Good;
    hide HonestNode;
    hide Keep;
    hide Rerun;
    hide Get;
    ProvedIsGenuine(env, w, p, c);
    HonestReceipt(env, w, n, c);
    KeepStores(env, n, Settled(env, w, c));
  }

  // ---------------------------------------------------------------- the proof search

  /** One call of FindProof: tries proofs from p up to the pause point. */
  function Scan(env: Env, b: BlockVal, p: u32, pause: u32): (q: u32)
    ensures p <= q && (p < pause ==> q <= pause)
    ensures q < pause ==> HasValidProof(env, WithProof(b, q))
    ensures p < q ==> q <= pause
    ensures forall i: u32 :: p <= i < q ==> !HasValidProof(env, WithProof(b, i))
    decreases pause - p
  {
    if p >= pause || HasValidProof(env, WithProof(b, p)) then p else Scan(env, b, p + 1, pause)
  }

  /** The proof field after k calls of FindProof on a block whose search starts at proof 0. */
  function SearchedTo(env: Env, b: BlockVal, rounds: u32, k: nat): u32 {
    if k == 0 then 0
    else var p := SearchedTo(env, b, rounds, k - 1); Scan(env, b, p, Wrap(p + rounds))
  }

  /** The k-th call announces a proof. */
  predicate Announces(env: Env, b: BlockVal, rounds: u32, k: nat) {
    var p := SearchedTo(env, b, rounds, k);
    SearchedTo(env, b, rounds, k + 1) < Wrap(p + rounds)
  }

  /** How far k fruitless calls get: rounds at a time, until the pause point would wrap. */
  function Reach(rounds: u32, k: nat): u32 {
    if k == 0 then 0
    else if Reach(rounds, k - 1) + rounds < 0x1_0000_0000 then Reach(rounds, k - 1) + rounds
    else Reach(rounds, k - 1)
  }

  lemma MulStep(k: int, r: int)
    ensures (k + 1) * r == k * r + r
  {
  }

  lemma MulGrows(a: int, b: int, r: nat)
    requires a <= b
    ensures a * r <= b * r
  {
  }

  lemma FullIs(rounds: u32)
    requires rounds > 0
    ensures var full := 0xFFFF_FFFF / rounds; full * rounds <= 0xFFFF_FFFF < full * rounds + rounds
  {
  }

  lemma {:induction false} ReachIs(rounds: u32, k: nat, full: nat)
    requires rounds > 0 && full * rounds <= 0xFFFF_FFFF < full * rounds + rounds
    ensures Reach(rounds, k) == (if k <= full then k else full) * rounds
    ensures Reach(rounds, k) <= full * rounds
  {
    if k > 0 {
      ReachIs(rounds, k - 1, full);
      MulStep(k - 1, rounds);
      if k <= full { MulGrows(k, full, rounds); }
    }
  }

  /** After k calls the search stands at the least valid proof, or has ruled out everything below its
      reach. */
  lemma {:induction false} SearchIsExhaustive(env: Env, b: BlockVal, rounds: u32, k: nat)
    requires rounds > 0
    ensures var s := SearchedTo(env, b, rounds, k);
            && (forall i: u32 :: i < s ==> !HasValidProof(env, WithProof(b, i)))
            && s <= Reach(rounds, k)
            && (s == Reach(rounds, k) || HasValidProof(env, WithProof(b, s)))
  {
    hide HasValidProof;
    if k > 0 {
      SearchIsExhaustive(env, b, rounds, k - 1);
      WrapPause(SearchedTo(env, b, rounds, k - 1), rounds);
      hide Wrap;
    }
  }

  lemma WrapPause(p: u32, rounds: u32)
    requires rounds > 0
    ensures p + rounds < 0x1_0000_0000 ==> Wrap(p + rounds) == p + rounds
    ensures p + rounds >= 0x1_0000_0000 ==> Wrap(p + rounds) < p
  {
  }

  /** The search is not complete over all 2^32 proofs, because the pause point wraps and the loop then
      never runs again. It announces a proof at some call exactly when a valid one lies below the
      greatest multiple of the rounds that fits in 32 bits. */
  lemma SearchSucceedsIff(env: Env, b: BlockVal, rounds: u32)
    requires rounds > 0
    ensures (exists k: nat :: Announces(env, b, rounds, k))
            <==> exists p: u32 :: p < 0xFFFF_FFFF / rounds * rounds && HasValidProof(env, WithProof(b, p))
  {
    hide HasValidProof;
    hide Announces;
    var full := 0xFFFF_FFFF / rounds;
    FullIs(rounds);
    if k: nat :| Announces(env, b, rounds, k) {
      var p := AnnouncedIsInReach(env, b, rounds, k, full);
    }
    if p: u32 :| p < full * rounds && HasValidProof(env, WithProof(b, p)) {
      ReachIs(rounds, full, full);
      SearchFinds(env, b, rounds, full, p);
    }
  }

  /** In particular the last of the 2^32 proofs is never announced, whatever the rounds. */
  lemma LastProofIsMissed(env: Env, b: BlockVal, rounds: u32, k: nat)
    requires rounds > 0
    requires forall p: u32 :: HasValidProof(env, WithProof(b, p)) ==> p == 0xFFFF_FFFF
    ensures !Announces(env, b, rounds, k)
  {
    hide HasValidProof;
    hide Announces;
    FullIs(rounds);
    SearchSucceedsIff(env, b, rounds);
  }

  lemma AnnouncedIsInReach(env: Env, b: BlockVal, rounds: u32, k: nat, full: nat) returns (q: u32)
    requires rounds > 0 && Announces(env, b, rounds, k)
    requires full * rounds <= 0xFFFF_FFFF < full * rounds + rounds
    ensures q < full * rounds && HasValidProof(env, WithProof(b, q))
  {
    hide HasValidProof;
    var p := SearchedTo(env, b, rounds, k);
    q := SearchedTo(env, b, rounds, k + 1);
    SearchIsExhaustive(env, b, rounds, k);
    WrapPause(p, rounds);
    hide Wrap;
    assert HasValidProof(env, WithProof(b, q));
    ReachIs(rounds, k, full);
    ReachIs(rounds, k + 1, full);
  }

  lemma {:induction false} SearchFinds(env: Env, b: BlockVal, rounds: u32, k: nat, p: u32)
    requires rounds > 0 && p < Reach(rounds, k) && HasValidProof(env, WithProof(b, p))
    ensures exists j: nat :: j < k && Announces(env, b, rounds, j)
  {
    hide HasValidProof;
    SearchIsExhaustive(env, b, rounds, k - 1);
    if p < Reach(rounds, k - 1) {
      SearchFinds(env, b, rounds, k - 1, p);
    } else {
      var s := SearchedTo(env, b, rounds, k - 1);
      SearchIsExhaustive(env, b, rounds, k);
      WrapPause(s, rounds);
      assert Announces(env, b, rounds, k - 1);
    }
  }
}
