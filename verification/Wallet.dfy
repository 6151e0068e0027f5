/** What a client may still spend, over whole runs. */
module Wallet {
  import opened Prelude
  import opened Ledger
  import opened Chains
  import opened Store
  import opened Honest
  import opened Mining
  import opened Forks
  import opened Stability
  import opened Accounts

  /** The exact cost of a set of pending transactions. */
  ghost function Owed(txs: set<Transaction>): nat {
    if txs == {} then 0 else var t :| t in txs; TotalOutput(t) + Owed(txs - {t})
  }

  lemma {:induction false} OwedWithout(txs: set<Transaction>, t: Transaction)
    requires t in txs
    ensures Owed(txs) == TotalOutput(t) + Owed(txs - {t})
    decreases txs
  {
    hide TotalOutput;
    var u :| u in txs && Owed(txs) == TotalOutput(u) + Owed(txs - {u});
    if u != t {
      OwedWithout(txs - {u}, t);
      OwedWithout(txs - {t}, u);
      assert txs - {u} - {t} == txs - {t} - {u};
    }
  }

  lemma OwedWith(txs: set<Transaction>, t: Transaction)
    requires t !in txs
    ensures Owed(txs + {t}) == TotalOutput(t) + Owed(txs)
  {
    hide TotalOutput;
    OwedWithout(txs + {t}, t);
    assert txs + {t} - {t} == txs;
  }

  lemma {:induction false} OwedSplits(txs: set<Transaction>, part: set<Transaction>)
    requires part <= txs
    ensures Owed(txs) == Owed(txs - part) + Owed(part)
    decreases part
  {
    hide TotalOutput;
    if part == {} {
      assert txs - part == txs;
    } else {
      var t :| t in part;
      OwedWithout(txs, t);
      OwedWithout(part, t);
      OwedSplits(txs - {t}, part - {t});
      assert txs - {t} - (part - {t}) == txs - part;
    }
  }

  /** The debt is the sum of the 32-bit costs, whatever the order. */
  lemma OwedIsSum(a: set<Transaction>, b: set<Transaction>, t: Transaction)
    requires a !! b
    ensures Owed({}) == 0
    ensures Owed({t}) == (Paid(t.info.outputs) + t.info.fee) % 0x1_0000_0000
    ensures Owed(a + b) == Owed(a) + Owed(b)
  {
    OwedWithout({t}, t);
    assert {t} - {t} == {};
    OwedSplits(a + b, b);
    assert a + b - b == a;
  }

  // ---------------------------------------------------------------- the wallet's operations

  function ConfirmedBalance(n: NodeVal): u32 {
    Get(n.confirmed.book.balances, n.address)
  }

  /** 32-bit arithmetic throughout, as the program computes it. */
  ghost function AvailableGold(n: NodeVal): u32 {
    Wrap(ConfirmedBalance(n) - Wrap(Owed(n.outgoing)))
  }

  function NewTransaction(env: Env, n: NodeVal, outputs: seq<Output>, fee: u32, pubkey: string): Transaction {
    var info := TransactionInfo(n.address, n.nonce, pubkey, fee, outputs, "");
    Transaction(info, Some(env.signer(n.key, info)))
  }

  /** None where the program panics: not enough gold, or no outputs. */
  ghost function PostTransaction(env: Env, n: NodeVal, outputs: seq<Output>, fee: u32, pubkey: string)
    : Option<(NodeVal, Transaction)>
  {
    var tx := NewTransaction(env, n, outputs, fee, pubkey);
    if TotalOutput(tx) > AvailableGold(n) || outputs == [] then None
    else Some((n.(outgoing := n.outgoing + {tx}, nonce := Wrap(n.nonce + 1)), tx))
  }

  // ---------------------------------------------------------------- one confirmed block

  predicate From(e: TxEntry, a: Address) {
    e.tx.info.from == a
  }

  /** What a spends in a block. */
  function Spent(txs: seq<TxEntry>, a: Address): nat {
    if txs == [] then 0
    else Spent(txs[..|txs| - 1], a) + if From(txs[|txs| - 1], a) then TotalOutput(txs[|txs| - 1].tx) else 0
  }

  function OwnTxs(txs: seq<TxEntry>, a: Address): set<Transaction> {
    set e | e in txs && From(e, a) :: e.tx
  }

  /** A replay takes from an address no more than what its own transactions cost. */
  lemma {:induction false} ReplayTakesOnlySpent(env: Env, book: Book, txs: seq<TxEntry>, a: Address)
    requires Replay(env, book, txs).Accepted?
    requires Total(book.balances) < 0x1_0000_0000 && NoneOverflows(txs)
    ensures Get(Replay(env, book, txs).book.balances, a) + Spent(txs, a) >= Get(book.balances, a)
    decreases |txs|
  {
    hide Apply;
    hide Get;
    hide Total;
    hide PaidTo;
    hide TotalOutput;
    hide Cost;
    if txs != [] {
      var front, e := txs[..|txs| - 1], txs[|txs| - 1];
      assert txs == front + [e];
      ReplayAppend(env, book, front, e);
      ReplayTakesOnlySpent(env, book, front, a);
      ReplayConserves(env, book, front);
      assert e in txs;
      ApplyIsExact(env, Replay(env, book, front).book, e.tx, a);
    }
  }

  /** A replay never takes the same transaction twice, so what is spent is what the set of the sender's
      transactions costs. */
  lemma {:induction false} SpentIsOwed(env: Env, book: Book, txs: seq<TxEntry>, a: Address)
    requires Replay(env, book, txs).Accepted? && book.txs == []
    ensures Spent(txs, a) == Owed(OwnTxs(txs, a))
    decreases |txs|
  {
    hide Apply;
    hide TotalOutput;
    hide Owed;
    if txs == [] {
      assert OwnTxs(txs, a) == {};
      NothingOwed();
    } else {
      var front, e := txs[..|txs| - 1], txs[|txs| - 1];
      assert txs == front + [e];
      ReplayAppend(env, book, front, e);
      SpentIsOwed(env, book, front, a);
      ReplayIsCanonical(env, book, front);
      if From(e, a) {
        NotTwice(env, Replay(env, book, front).book, front, e.tx);
        OwedWith(OwnTxs(front, a), e.tx);
        assert OwnTxs(txs, a) == OwnTxs(front, a) + {e.tx};
      } else {
        assert OwnTxs(txs, a) == OwnTxs(front, a);
      }
    }
  }

  lemma NothingOwed()
    ensures Owed({}) == 0
  {
  }

  lemma NotTwice(env: Env, book: Book, txs: seq<TxEntry>, tx: Transaction)
    requires Apply(env, book, tx).Accepted? && book.txs == [] + Canonical(env, txs)
    ensures forall e :: e in txs ==> e.tx != tx
  {
    hide Get;
    forall e | e in txs ensures e.tx != tx {
      var i :| 0 <= i < |txs| && txs[i] == e;
      assert book.txs[i].id == IdOf(env, e.tx);
    }
  }

  lemma ContainsIs(env: Env, txs: seq<TxEntry>, tx: Transaction)
    requires Ideal(env) && txs == Canonical(env, txs)
    ensures Contains(env, txs, tx) <==> tx in TxSet(txs)
  {
    if Contains(env, txs, tx) {
      var i :| 0 <= i < |txs| && txs[i].id == IdOf(env, tx);
      assert txs[i] == Canonical(env, txs)[i];
      SameId(env, txs[i].tx, tx);
      assert txs[i] in txs;
    }
    if tx in TxSet(txs) {
      var e :| e in txs && e.tx == tx;
      var i :| 0 <= i < |txs| && txs[i] == e;
      assert txs[i] == Canonical(env, txs)[i];
    }
  }

  lemma LinkIsCanonical(env: Env, p: BlockVal, b: BlockVal)
    requires Link(env, p, b)
    ensures b.book.txs == Canonical(env, b.book.txs)
  {
    RerunIsIdempotent(env, b.book.txs, p);
  }

  /** Confirming b on top of p costs the address at most its own transactions in b. */
  lemma ConfirmationTakesOnlySpent(env: Env, w: World, p: BlockVal, b: BlockVal, a: Address)
    requires Lawful(env, w) && Good(env, w, p) && GoodLink(env, w, p, b)
    ensures Get(b.book.balances, a) + Owed(OwnTxs(b.book.txs, a)) >= Get(p.book.balances, a)
  {
    hide Get;
    hide Total;
    hide Good;
    hide Owed;
    hide OwnTxs;
    hide Replay;
    SupplyBound(env, w, p);
    SoundFits(w.genesis.book.balances, b.book.txs);
    LinkIsReplay(env, p, b);
    RewardedIs(p);
    RewardFits(p, a);
    hide Rewarded;
    ReplayTakesOnlySpent(env, Base(p), b.book.txs, a);
    SpentIsOwed(env, Base(p), b.book.txs, a);
  }

  // ---------------------------------------------------------------- the wallet invariant

  /** Every stored transaction that spends from the client's address was posted by the client. The
      program does not enforce this: it never ties the public key to the address. */
  ghost predicate SoleSpender(n: NodeVal, posted: seq<Transaction>) {
    forall h, e :: h in n.blocks && e in n.blocks[h].book.txs && From(e, n.address) ==> e.tx in posted
  }

  ghost predicate PostedInOrder(n: NodeVal, posted: seq<Transaction>) {
    && |posted| < 0x1_0000_0000 && n.nonce == |posted|
    && forall i :: 0 <= i < |posted| ==> posted[i].info.from == n.address && posted[i].info.nonce == i
  }

  /** Pending is exactly posted minus confirmed. */
  ghost predicate PendingIsUnconfirmed(n: NodeVal, posted: seq<Transaction>) {
    forall t :: t in n.outgoing <==> t in posted && !OnBranch(Ancestry(n.blocks, n.confirmed), t)
  }

  ghost predicate Solvent(n: NodeVal) {
    Owed(n.outgoing) <= Get(n.confirmed.book.balances, n.address)
  }

  ghost predicate WalletInv(env: Env, w: World, n: NodeVal, posted: seq<Transaction>) {
    && HonestNode(env, w, n)
    && SoleSpender(n, posted)
    && PostedInOrder(n, posted)
    && PendingIsUnconfirmed(n, posted)
    && Solvent(n)
  }

  /** While the wallet is solvent the 32-bit subtraction is exact: it never wraps below zero. */
  lemma AvailableIsExact(n: NodeVal)
    requires Solvent(n)
    ensures AvailableGold(n) == Get(n.confirmed.book.balances, n.address) - Owed(n.outgoing)
  {
  }

  lemma FreshWallet(env: Env, w: World, address: Address, key: string, config: Config)
    requires Lawful(env, w)
    ensures WalletInv(env, w, Fresh(env, address, key, config, w.genesis), [])
  {
    FreshIsHonest(env, w, address, key, config);
    hide HonestNode;
    hide OnBranch;
  }

  lemma HonestChainCounts(env: Env, w: World, n: NodeVal, b: BlockVal, a: Address)
    requires Lawful(env, w) && HonestNode(env, w, n) && HashOf(env, b) in n.blocks && n.blocks[HashOf(env, b)] == b
    ensures CountsUp(NoncesOf(History(Ancestry(n.blocks, b)), a), 0)
  {
    hide Good;
    hide Link;
    hide Ancestry;
    hide ParkedInv;
    hide TipInv;
    hide Ideal;
    PathIsChain(env, n.blocks, b);
    HeightsArePositions(env, w, n, b);
    ChainCountsNonces(env, Ancestry(n.blocks, b), a);
    NoNonceEntries(w.genesis.book, a);
    hide NoncesOf;
    hide History;
  }

  lemma OwnEntryIsPosted(env: Env, w: World, n: NodeVal, posted: seq<Transaction>, b: BlockVal, e: TxEntry)
    requires Lawful(env, w) && HonestNode(env, w, n) && SoleSpender(n, posted)
    requires HashOf(env, b) in n.blocks && n.blocks[HashOf(env, b)] == b
    requires e in History(Ancestry(n.blocks, b)) && From(e, n.address)
    ensures e.tx in posted
  {
    hide Lawful;
    hide HonestNode;
    hide Ancestry;
    hide HashOf;
    var i := EntryHasBlock(Ancestry(n.blocks, b), e);
    AncestorIsStored(env, w, n, b, i);
  }

  /** The nonces on the chain never run past those posted. */
  lemma OwnNoncesBounded(env: Env, w: World, n: NodeVal, posted: seq<Transaction>, b: BlockVal)
    requires Lawful(env, w) && HonestNode(env, w, n) && SoleSpender(n, posted) && PostedInOrder(n, posted)
    requires HashOf(env, b) in n.blocks && n.blocks[HashOf(env, b)] == b
    ensures |NoncesOf(History(Ancestry(n.blocks, b)), n.address)| <= |posted|
  {
    hide Lawful;
    hide HonestNode;
    hide Ancestry;
    hide HashOf;
    hide History;
    hide NoncesOf;
    hide SoleSpender;
    var txs := History(Ancestry(n.blocks, b));
    var ns := NoncesOf(txs, n.address);
    HonestChainCounts(env, w, n, b, n.address);
    if |ns| > |posted| {
      var e := NonceHasEntry(txs, n.address, |posted|);
      OwnEntryIsPosted(env, w, n, posted, b, e);
    }
  }

  lemma NoNonceEntries(book: Book, a: Address)
    requires book.nonces == []
    ensures Get(book.nonces, a) == 0
  {
  }

  lemma {:induction false} NonceHasEntry(txs: seq<TxEntry>, a: Address, p: nat) returns (e: TxEntry)
    requires p < |NoncesOf(txs, a)|
    ensures e in txs && From(e, a) && e.tx.info.nonce == NoncesOf(txs, a)[p]
    decreases |txs|
  {
    var front := txs[..|txs| - 1];
    if p < |NoncesOf(front, a)| {
      e := NonceHasEntry(front, a, p);
    } else {
      e := txs[|txs| - 1];
    }
  }

  lemma {:induction false} EntryHasBlock(ch: seq<BlockVal>, e: TxEntry) returns (i: nat)
    requires e in History(ch)
    ensures i < |ch| && e in ch[i].book.txs
    decreases |ch|
  {
    if e in History(ch[..|ch| - 1]) {
      i := EntryHasBlock(ch[..|ch| - 1], e);
    } else {
      i := |ch| - 1;
    }
  }

  // ---------------------------------------------------------------- a block arrives

  /** Receiving b does not switch to a branch that leaves the tip's below the confirmed block. */
  ghost predicate NoDeepFork(env: Env, n: NodeVal, b: BlockVal) {
    Moves(env, n, b) ==> n.confirmed.meta.height < ForkPoint(env, n, b)
  }

  lemma QuietReceive(env: Env, w: World, n: NodeVal, b: BlockVal)
    requires Lawful(env, w) && HonestNode(env, w, n) && Genuine(env, w, b)
    requires Receive(env, n, b).0.last == n.last
    ensures var m := Receive(env, n, b).0;
            m.outgoing == n.outgoing && m.confirmed == n.confirmed && m.address == n.address && m.nonce == n.nonce
  {
    hide Receive;
    hide Genuine;
    hide Good;
    hide Link;
    hide HashOf;
    hide ParkedInv;
    hide ConfirmedOf;
    HonestReceipt(env, w, n, b);
  }

  lemma MovingReceive(env: Env, w: World, n: NodeVal, b: BlockVal)
    requires Lawful(env, w) && HonestNode(env, w, n) && Genuine(env, w, b)
    requires Receive(env, n, b).0.last != n.last
    ensures var m := Receive(env, n, b).0;
            && m.outgoing == (set t | t in n.outgoing && !Contains(env, m.confirmed.book.txs, t))
            && m.address == n.address && m.nonce == n.nonce
  {
    hide Receive;
    hide Genuine;
    hide Good;
    hide Link;
    hide HashOf;
    hide ParkedInv;
    hide ConfirmedOf;
    hide Contains;
    HonestReceipt(env, w, n, b);
  }

  lemma GenesisContainsNothing(env: Env, w: World, tx: Transaction)
    requires Lawful(env, w)
    ensures !Contains(env, w.genesis.book.txs, tx)
  {
  }

  /** While the tip is within the confirmation depth the genesis stays confirmed and nothing is settled. */
  lemma ShallowReceive(env: Env, w: World, n: NodeVal, b: BlockVal)
    requires Lawful(env, w) && HonestNode(env, w, n) && Genuine(env, w, b)
    requires var m := Receive(env, n, b).0; m.last != n.last && m.last.meta.height <= CONFIRMED_DEPTH && m.confirmed == n.confirmed
    ensures Receive(env, n, b).0.outgoing == n.outgoing
  {
    hide Receive;
    hide Genuine;
    hide HonestNode;
    hide Lawful;
    hide Contains;
    var m := Receive(env, n, b).0;
    MovingReceive(env, w, n, b);
    HonestReceive(env, w, n, b);
    ConfirmedIsAncestor(env, w, m);
    assert m.confirmed == w.genesis;
    forall t ensures !Contains(env, m.confirmed.book.txs, t) { GenesisContainsNothing(env, w, t); }
  }

  lemma OnLongerBranch(ch: seq<BlockVal>, b: BlockVal, t: Transaction)
    ensures OnBranch(ch + [b], t) <==> OnBranch(ch, t) || t in TxSet(b.book.txs)
  {
    hide TxSet;
    if OnBranch(ch, t) {
      var i :| 0 <= i < |ch| && t in TxSet(ch[i].book.txs);
      assert (ch + [b])[i] == ch[i];
    }
    assert (ch + [b])[|ch|] == b;
    if OnBranch(ch + [b], t) {
      var i :| 0 <= i < |ch + [b]| && t in TxSet((ch + [b])[i].book.txs);
      if i < |ch| { assert ch[i] == (ch + [b])[i]; }
    }
  }

  /** Where the confirmed block and its branch are after a deep enough tip moved. */
  lemma DeepReceive(env: Env, w: World, n: NodeVal, b: BlockVal)
    requires Lawful(env, w) && HonestNode(env, w, n) && Genuine(env, w, b)
    requires var m := Receive(env, n, b).0;
             m.last != n.last && NoDeepFork(env, n, b) && m.last.meta.height > CONFIRMED_DEPTH
    ensures var m := Receive(env, n, b).0;
            && GoodLink(env, w, n.confirmed, m.confirmed) && Good(env, w, n.confirmed)
            && Ancestry(m.blocks, m.confirmed) == Ancestry(n.blocks, n.confirmed) + [m.confirmed]
            && m.outgoing == n.outgoing - TxSet(m.confirmed.book.txs)
            && HashOf(env, m.confirmed) in m.blocks && m.blocks[HashOf(env, m.confirmed)] == m.confirmed
  {
    hide Receive;
    hide Genuine;
    hide Ancestry;
    hide Good;
    hide NodeInv;
    hide Meet;
    hide Contains;
    hide Link;
    var m := Receive(env, n, b).0;
    MovingReceive(env, w, n, b);
    HonestReceive(env, w, n, b);
    MovesTip(env, w, n, b);
    ConfirmedIsStableIff(env, w, n, b);
    ConfirmedIsAncestor(env, w, n);
    ConfirmedIsAncestor(env, w, m);
    ReceiveKeepsInv(env, n, b) by { IdealOf(env, w); NodeInvOf(env, w, n); }
    ConfirmedLinks(env, w, n.confirmed, m.confirmed);
    hide GoodLink;
    HeightsArePositions(env, w, n, n.confirmed);
    AncestryGrows(n.blocks, m.blocks, n.confirmed);
    assert m.blocks[HashOf(env, n.confirmed)] == n.confirmed;
    AncestryOfChild(m.blocks, m.confirmed);
    IdealOf(env, w);
    forall t ensures Contains(env, m.confirmed.book.txs, t) <==> t in TxSet(m.confirmed.book.txs) {
      ContainsIs(env, m.confirmed.book.txs, t);
    }
    hide TxSet;
    hide HonestNode;
    hide HashOf;
  }

  lemma ConfirmedLinks(env: Env, w: World, p: BlockVal, b: BlockVal)
    requires GoodLink(env, w, p, b)
    ensures b.meta.prev == HashOf(env, p) && b.meta.height > 0
    ensures b.book.txs == Canonical(env, b.book.txs)
  {
    LinkNames(env, p, b);
    LinkIsCanonical(env, p, b);
    hide Rerun;
  }

  /** The client's transactions in a newly confirmed block are exactly the pending ones it contains. */
  lemma ConfirmedWerePending(env: Env, w: World, n: NodeVal, m: NodeVal, posted: seq<Transaction>)
    requires Lawful(env, w) && WalletInv(env, w, n, posted)
    requires HonestNode(env, w, m) && SoleSpender(m, posted) && m.address == n.address && m.nonce == n.nonce
    requires HashOf(env, m.confirmed) in m.blocks && m.blocks[HashOf(env, m.confirmed)] == m.confirmed
    requires Ancestry(m.blocks, m.confirmed) == Ancestry(n.blocks, n.confirmed) + [m.confirmed]
    ensures OwnTxs(m.confirmed.book.txs, n.address) <= n.outgoing
  {
    hide Ancestry;
    hide Good;
    hide NodeInv;
    hide HashOf;
    hide History;
    hide NoncesOf;
    hide Owed;
    var ch := Ancestry(m.blocks, m.confirmed);
    OwnNoncesBounded(env, w, m, posted, m.confirmed);
    PathIsChain(env, m.blocks, m.confirmed) by { NodeInvOf(env, w, m); NodeInvHasTree(env, m); }
    HeightsArePositions(env, w, m, m.confirmed);
    GenesisIsEmpty(env, w);
    hide Chain;
    hide HonestNode;
    hide Lawful;
    forall t | t in OwnTxs(m.confirmed.book.txs, n.address) ensures t in n.outgoing {
      var e :| e in m.confirmed.book.txs && From(e, n.address) && e.tx == t;
      assert t in posted;
      assert t.info.from == n.address;
      if OnBranch(Ancestry(n.blocks, n.confirmed), t) {
        var i :| 0 <= i < |Ancestry(n.blocks, n.confirmed)| && t in TxSet(Ancestry(n.blocks, n.confirmed)[i].book.txs);
        assert t in TxSet(ch[i].book.txs);
        assert i > 0 by { assert TxSet(w.genesis.book.txs) == {}; }
        BlocksShareNothing(env, ch, i, |ch| - 1, t);
      }
    }
  }

  lemma SettlingStaysSolvent(env: Env, w: World, n: NodeVal, m: NodeVal)
    requires Lawful(env, w) && Solvent(n) && m.address == n.address
    requires Good(env, w, n.confirmed) && GoodLink(env, w, n.confirmed, m.confirmed)
    requires OwnTxs(m.confirmed.book.txs, n.address) <= n.outgoing
    requires m.outgoing == n.outgoing - TxSet(m.confirmed.book.txs)
    requires forall t :: t in n.outgoing ==> t.info.from == n.address
    ensures Solvent(m)
  {
    var own := OwnTxs(m.confirmed.book.txs, n.address);
    ConfirmationTakesOnlySpent(env, w, n.confirmed, m.confirmed, n.address);
    hide Lawful;
    hide Good;
    hide GoodLink;
    hide Owed;
    hide Get;
    OwedSplits(n.outgoing, own);
    forall t ensures t in n.outgoing && t in TxSet(m.confirmed.book.txs) <==> t in own {
      if t in n.outgoing && t in TxSet(m.confirmed.book.txs) {
        var e :| e in m.confirmed.book.txs && e.tx == t;
        assert From(e, n.address);
      }
    }
    assert m.outgoing == n.outgoing - own;
  }

  /** A received block keeps the wallet's books: pending is still posted minus confirmed, and still covered. */
  lemma ReceiveKeepsWallet(env: Env, w: World, n: NodeVal, b: BlockVal, posted: seq<Transaction>)
    requires Lawful(env, w) && WalletInv(env, w, n, posted) && Genuine(env, w, b)
    requires SoleSpender(Receive(env, n, b).0, posted) && NoDeepFork(env, n, b)
    ensures WalletInv(env, w, Receive(env, n, b).0, posted)
  {
    hide Receive;
    hide Lawful;
    hide Genuine;
    hide HonestNode;
    hide Ancestry;
    hide SoleSpender;
    hide Meet;
    hide OnBranch;
    hide Owed;
    hide Get;
    hide HashOf;
    hide TxSet;
    var m := Receive(env, n, b).0;
    HonestReceive(env, w, n, b);
    if m.last == n.last {
      QuietReceive(env, w, n, b);
      SameBranch(env, w, n, b);
    } else {
      MovingReceive(env, w, n, b);
      MovesTip(env, w, n, b);
      if m.last.meta.height <= CONFIRMED_DEPTH {
        ConfirmedIsStableIff(env, w, n, b);
        ShallowReceive(env, w, n, b);
        SameBranch(env, w, n, b);
      } else {
        DeepReceive(env, w, n, b);
        forall t ensures OnBranch(Ancestry(m.blocks, m.confirmed), t)
                         <==> OnBranch(Ancestry(n.blocks, n.confirmed), t) || t in TxSet(m.confirmed.book.txs)
        {
          OnLongerBranch(Ancestry(n.blocks, n.confirmed), m.confirmed, t);
        }
        ConfirmedWerePending(env, w, n, m, posted);
        SettlingStaysSolvent(env, w, n, m);
      }
    }
  }

  lemma SameBranch(env: Env, w: World, n: NodeVal, b: BlockVal)
    requires Lawful(env, w) && HonestNode(env, w, n) && Genuine(env, w, b)
    ensures Ancestry(Receive(env, n, b).0.blocks, n.confirmed) == Ancestry(n.blocks, n.confirmed)
  {
    hide Receive;
    hide Genuine;
    hide Good;
    hide Ancestry;
    hide NodeInv;
    ConfirmedIsAncestor(env, w, n);
    HeightsArePositions(env, w, n, n.confirmed);
    ReceiveKeepsInv(env, n, b) by { IdealOf(env, w); NodeInvOf(env, w, n); }
    AncestryGrows(n.blocks, Receive(env, n, b).0.blocks, n.confirmed);
  }

  // ---------------------------------------------------------------- a transaction is posted

  lemma NewIsUnconfirmed(env: Env, w: World, n: NodeVal, posted: seq<Transaction>, t: Transaction)
    requires Lawful(env, w) && HonestNode(env, w, n) && SoleSpender(n, posted)
    requires t.info.from == n.address && OnBranch(Ancestry(n.blocks, n.confirmed), t)
    ensures t in posted
  {
    hide Good;
    hide Ancestry;
    hide NodeInv;
    ConfirmedIsAncestor(env, w, n);
    var ch := Ancestry(n.blocks, n.confirmed);
    var i :| 0 <= i < |ch| && t in TxSet(ch[i].book.txs);
    AncestorIsStored(env, w, n, n.confirmed, i);
    hide HonestNode;
    var e :| e in ch[i].book.txs && e.tx == t;
    assert From(e, n.address);
  }

  /** Posting keeps the wallet's books; it is refused exactly when the exact cost, wrapped to 32 bits,
      exceeds what is confirmed and not yet promised, or when there is nothing to pay. */
  lemma PostKeepsWallet(env: Env, w: World, n: NodeVal, posted: seq<Transaction>,
                        outputs: seq<Output>, fee: u32, pubkey: string)
    requires Lawful(env, w) && WalletInv(env, w, n, posted) && |posted| < 0xFFFF_FFFF
    ensures var r := PostTransaction(env, n, outputs, fee, pubkey);
            && (r.None? <==> outputs == [] || (Paid(outputs) + fee) % 0x1_0000_0000 > Get(n.confirmed.book.balances, n.address) - Owed(n.outgoing))
            && (r.Some? ==> WalletInv(env, w, r.value.0, posted + [r.value.1]) && r.value.1 !in posted)
  {
    hide Lawful;
    hide HonestNode;
    hide Ancestry;
    hide OnBranch;
    hide Owed;
    hide Get;
    AvailableIsExact(n);
    hide AvailableGold;
    var tx := NewTransaction(env, n, outputs, fee, pubkey);
    assert tx !in posted;
    if OnBranch(Ancestry(n.blocks, n.confirmed), tx) { NewIsUnconfirmed(env, w, n, posted, tx); }
    assert tx !in n.outgoing;
    OwedWith(n.outgoing, tx);
    var m := n.(outgoing := n.outgoing + {tx}, nonce := Wrap(n.nonce + 1));
    SameTree(env, w, n, m);
    assert SoleSpender(m, posted + [tx]);
    hide SoleSpender;
    assert n.nonce == |posted|;
    assert PostedInOrder(m, posted + [tx]);
    hide PostedInOrder;
  }

  lemma SameTree(env: Env, w: World, n: NodeVal, m: NodeVal)
    requires HonestNode(env, w, n) && m.blocks == n.blocks && m.parked == n.parked && m.last == n.last && m.confirmed == n.confirmed
    ensures HonestNode(env, w, m)
  {
    hide TreeInv;
    hide ParkedInv;
    hide TipInv;
    hide Good;
    hide Genuine;
  }

  // ---------------------------------------------------------------- whole runs

  datatype Account = Account(node: NodeVal, posted: seq<Transaction>)

  /** One event at the node: a block, a posted transaction, or mining work. */
  ghost predicate Next(env: Env, w: World, a: Account, b: Account) {
    || (b.posted == a.posted && exists blk :: Genuine(env, w, blk) && b.node == Receive(env, a.node, blk).0
                                              && SoleSpender(b.node, b.posted) && NoDeepFork(env, a.node, blk))
    || (|a.posted| < 0xFFFF_FFFF && exists outputs, fee, pubkey, tx ::
          PostTransaction(env, a.node, outputs, fee, pubkey) == Some((b.node, tx)) && b.posted == a.posted + [tx])
    || (b.posted == a.posted && exists c, p :: b.node == a.node.(current := c, pool := p))
  }

  lemma NextKeepsWallet(env: Env, w: World, a: Account, b: Account)
    requires Lawful(env, w) && WalletInv(env, w, a.node, a.posted) && Next(env, w, a, b)
    ensures WalletInv(env, w, b.node, b.posted)
  {
    hide Lawful;
    hide Receive;
    hide PostTransaction;
    hide Genuine;
    hide HonestNode;
    hide Ancestry;
    hide Owed;
    hide OnBranch;
    hide NoDeepFork;
    if c, p :| b.posted == a.posted && b.node == a.node.(current := c, pool := p) {
      SameTree(env, w, a.node, b.node);
    } else {
      hide WalletInv;
      if blk :| b.posted == a.posted && Genuine(env, w, blk) && b.node == Receive(env, a.node, blk).0
                && SoleSpender(b.node, b.posted) && NoDeepFork(env, a.node, blk) {
        ReceiveKeepsWallet(env, w, a.node, blk, a.posted);
      } else {
        var outputs, fee, pubkey, tx :| PostTransaction(env, a.node, outputs, fee, pubkey) == Some((b.node, tx))
                                        && b.posted == a.posted + [tx];
        PostKeepsWallet(env, w, a.node, a.posted, outputs, fee, pubkey);
      }
    }
  }

  /** Wallet safety. In every state of every run in which only the client spends from its address and no
      fork switch reaches below the confirmed block: pending is exactly posted minus confirmed, it is
      covered by the confirmed balance, and AvailableGold is their exact difference. The confirmed balance is
      what the address had at the start, plus the coinbases and payments it got, minus what it paid, along the
      ancestry of the confirmed block. */
  lemma {:induction false} WalletIsSafe(env: Env, w: World, run: seq<Account>, i: nat)
    requires Lawful(env, w) && i < |run|
    requires run[0].posted == [] && run[0].node == Fresh(env, run[0].node.address, run[0].node.key, run[0].node.config, w.genesis)
    requires forall j :: 0 <= j < |run| - 1 ==> Next(env, w, run[j], run[j + 1])
    ensures WalletInv(env, w, run[i].node, run[i].posted)
    ensures var n := run[i].node;
            var balance, ch := Get(n.confirmed.book.balances, n.address), Ancestry(n.blocks, n.confirmed);
            && AvailableGold(n) + Owed(n.outgoing) == balance
            && balance == Get(w.genesis.book.balances, n.address) + Earned(ch, n.address)
                          - Debits(History(ch), n.address) + Credits(History(ch), n.address)
  {
    hide Next;
    hide Lawful;
    hide WalletInv;
    hide AvailableGold;
    hide Owed;
    hide Fresh;
    hide Get;
    hide Earned;
    hide Debits;
    hide Credits;
    hide History;
    hide Ancestry;
    if i == 0 {
      FreshWallet(env, w, run[0].node.address, run[0].node.key, run[0].node.config);
    } else {
      WalletIsSafe(env, w, run, i - 1);
      assert Next(env, w, run[i - 1], run[i]);
      NextKeepsWallet(env, w, run[i - 1], run[i]);
    }
    WalletIsSolvent(env, w, run[i].node, run[i].posted);
    AvailableIsExact(run[i].node);
    ConfirmedGold(env, w, run[i].node);
  }

  lemma ConfirmedGold(env: Env, w: World, n: NodeVal)
    requires Lawful(env, w) && HonestNode(env, w, n)
    ensures var ch := Ancestry(n.blocks, n.confirmed);
            Get(n.confirmed.book.balances, n.address)
            == Get(w.genesis.book.balances, n.address) + Earned(ch, n.address)
               - Debits(History(ch), n.address) + Credits(History(ch), n.address)
  {
    hide Lawful;
    hide HonestNode;
    hide Get;
    hide Earned;
    hide Debits;
    hide Credits;
    hide History;
    hide Ancestry;
    ConfirmedIsAncestor(env, w, n);
    HonestBalance(env, w, n, n.confirmed, n.address);
  }

  lemma WalletIsSolvent(env: Env, w: World, n: NodeVal, posted: seq<Transaction>)
    requires WalletInv(env, w, n, posted)
    ensures Solvent(n) && HonestNode(env, w, n)
  {
  }
}
