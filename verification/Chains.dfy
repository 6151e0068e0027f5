/** What holds along every chain of replayed blocks, from a block of height 0 to any tip. */
module Chains {
  import opened Prelude
  import opened Ledger

  /** b names p as its parent and carries exactly the book that replaying b on p produces. */
  ghost predicate Link(env: Env, p: BlockVal, b: BlockVal) {
    && b.meta.height > 0
    && b.meta.prev == HashOf(env, p)
    && Rerun(env, b.book.txs, p) == Accepted(b.book)
  }

  ghost predicate Chain(env: Env, ch: seq<BlockVal>) {
    && |ch| > 0
    && ch[0].meta.height == 0
    && forall i :: 0 < i < |ch| ==> Link(env, ch[i - 1], ch[i])
  }

  function Tip(ch: seq<BlockVal>): BlockVal
    requires |ch| > 0
  {
    ch[|ch| - 1]
  }

  /** All transactions replayed along the chain; those of the root never are. */
  function History(ch: seq<BlockVal>): seq<TxEntry>
  {
    if |ch| <= 1 then [] else History(ch[..|ch| - 1]) + Tip(ch).book.txs
  }

  /** Coinbases paid along the chain: one per proper ancestor of the tip that names a payee. */
  function Rewards(ch: seq<BlockVal>): nat {
    if |ch| <= 1 then 0
    else Rewards(ch[..|ch| - 1]) + Reward(ch[|ch| - 2], ch[|ch| - 2].meta.rewardAddr)
  }

  lemma ChainPrefix(env: Env, ch: seq<BlockVal>, n: nat)
    requires Chain(env, ch) && 0 < n <= |ch|
    ensures Chain(env, ch[..n])
  {
  }

  lemma LinkIsReplay(env: Env, p: BlockVal, b: BlockVal)
    requires Link(env, p, b)
    ensures Replay(env, Base(p), b.book.txs) == Accepted(b.book)
  {
  }

  // ---------------------------------------------------------------- conservation

  lemma {:induction false} FeesConcat(s: seq<TxEntry>, t: seq<TxEntry>)
    ensures Fees(s + t) == Fees(s) + Fees(t)
  {
    if s == [] {
      assert s + t == t;
    } else {
      FeesConcat(s[1..], t);
      assert (s + t)[1..] == s[1..] + t;
    }
  }

  /** One block: reward of the parent in, fees of the block out. */
  lemma BlockConserves(env: Env, p: BlockVal, b: BlockVal)
    requires Link(env, p, b)
    ensures Congruent(Total(b.book.balances),
                      Total(p.book.balances) + Reward(p, p.meta.rewardAddr) - Fees(b.book.txs))
    ensures Total(p.book.balances) + Reward(p, p.meta.rewardAddr) < 0x1_0000_0000 && NoneOverflows(b.book.txs)
            ==> Total(b.book.balances)
                == Total(p.book.balances) + Reward(p, p.meta.rewardAddr) - Fees(b.book.txs)
  {
    hide Replay;
    hide Rewarded;
    hide Total;
    hide NoneOverflows;
    hide Congruent;
    hide Fees;
    LinkIsReplay(env, p, b);
    RewardedIs(p);
    ReplayConserves(env, Base(p), b.book.txs);
    CongruentAdd(Total(Rewarded(p)), Total(p.book.balances) + Reward(p, p.meta.rewardAddr), 0 - Fees(b.book.txs));
    CongruentTrans(Total(b.book.balances), Total(Rewarded(p)) - Fees(b.book.txs),
                   Total(p.book.balances) + Reward(p, p.meta.rewardAddr) - Fees(b.book.txs));
  }

  /** Along any chain the money supply is the starting supply plus the coinbases of proper ancestors
      minus every fee: modulo 2^32 always, and exactly when the supply and every cost fit. */
  lemma {:induction false} ChainConserves(env: Env, ch: seq<BlockVal>)
    requires Chain(env, ch)
    ensures Congruent(Total(Tip(ch).book.balances),
                      Total(ch[0].book.balances) + Rewards(ch) - Fees(History(ch)))
    ensures Total(ch[0].book.balances) + Rewards(ch) < 0x1_0000_0000 && NoneOverflows(History(ch))
            ==> Total(Tip(ch).book.balances) == Total(ch[0].book.balances) + Rewards(ch) - Fees(History(ch))
    decreases |ch|
  {
    hide Total;
    hide Rerun;
    hide Fees;
    if |ch| > 1 {
      var front := ch[..|ch| - 1];
      ChainPrefix(env, ch, |ch| - 1);
      ChainConserves(env, front);
      assert Link(env, Tip(front), Tip(ch));
      BlockConserves(env, Tip(front), Tip(ch));
      FeesConcat(History(front), Tip(ch).book.txs);
      if NoneOverflows(History(ch)) {
        assert forall e :: e in History(front) ==> e in History(ch);
        assert forall e :: e in Tip(ch).book.txs ==> e in History(ch);
      }
    } else {
      EmptyFees();
    }
  }

  lemma EmptyFees()
    ensures Fees([]) == 0
  {
  }

  /** Over a root that lists nobody twice no block does. */
  lemma {:induction false} ChainListsOnce(env: Env, ch: seq<BlockVal>)
    requires Chain(env, ch) && ListsOnce(ch[0].book)
    ensures ListsOnce(Tip(ch).book)
    decreases |ch|
  {
    hide ListsOnce;
    hide Rerun;
    if |ch| > 1 {
      ChainPrefix(env, ch, |ch| - 1);
      ChainListsOnce(env, ch[..|ch| - 1]);
      assert Link(env, ch[|ch| - 2], Tip(ch));
      RerunListsOnce(env, Tip(ch).book.txs, ch[|ch| - 2]);
    }
  }

  /** What all addresses together own. */
  ghost function Owned(b: BlockVal): nat {
    SumOf(AsMap(b.book.balances))
  }

  /** Over such a root the supply is what the addresses own, so that the sum of all balances an address can
      look up is what is conserved. */
  lemma OwnedIsConserved(env: Env, ch: seq<BlockVal>)
    requires Chain(env, ch) && ListsOnce(ch[0].book)
    ensures Owned(Tip(ch)) == Total(Tip(ch).book.balances)
    ensures Congruent(Owned(Tip(ch)), Owned(ch[0]) + Rewards(ch) - Fees(History(ch)))
    ensures Owned(ch[0]) + Rewards(ch) < 0x1_0000_0000 && NoneOverflows(History(ch))
            ==> Owned(Tip(ch)) == Owned(ch[0]) + Rewards(ch) - Fees(History(ch))
  {
    hide Total;
    hide Chain;
    hide Congruent;
    hide NoneOverflows;
    hide Fees;
    hide History;
    hide Rewards;
    hide Distinct;
    hide SumOf;
    ChainIsNotEmpty(env, ch);
    ChainListsOnce(env, ch);
    ChainConserves(env, ch);
    TotalIsSum(ch[0].book.balances);
    TotalIsSum(Tip(ch).book.balances);
  }

  lemma ChainIsNotEmpty(env: Env, ch: seq<BlockVal>)
    requires Chain(env, ch)
    ensures |ch| > 0
  {
  }

  /** No transaction of any chain, above its root, is unsigned or forged. */
  lemma {:induction false} ChainIsSigned(env: Env, ch: seq<BlockVal>)
    requires Chain(env, ch)
    ensures AllSigned(env, History(ch))
    decreases |ch|
  {
    hide Replay;
    if |ch| > 1 {
      var b := Tip(ch);
      ChainPrefix(env, ch, |ch| - 1);
      ChainIsSigned(env, ch[..|ch| - 1]);
      assert Link(env, ch[|ch| - 2], b);
      ReplayIsSigned(env, Base(ch[|ch| - 2]), b.book.txs);
    }
  }

  // ---------------------------------------------------------------- replay protection

  /** Along any chain the nonces of each sender count up without gap or repetition from the root's
      next nonce, and the tip stores the next one. */
  lemma {:induction false} ChainCountsNonces(env: Env, ch: seq<BlockVal>, a: Address)
    requires Chain(env, ch)
    ensures CountsUp(NoncesOf(History(ch), a), Get(ch[0].book.nonces, a))
    ensures Get(Tip(ch).book.nonces, a) == Wrap(Get(ch[0].book.nonces, a) + |NoncesOf(History(ch), a)|)
    decreases |ch|
  {
    hide Get;
    hide Replay;
    hide Rewarded;
    hide CountsUp;
    hide Wrap;
    hide NoncesOf;
    if |ch| > 1 {
      var front := ch[..|ch| - 1];
      ChainPrefix(env, ch, |ch| - 1);
      ChainCountsNonces(env, front, a);
      assert Link(env, Tip(front), Tip(ch));
      LinkIsReplay(env, Tip(front), Tip(ch));
      ReplayCountsNonces(env, Base(Tip(front)), Tip(ch).book.txs, a);
      NoncesOfConcat(History(front), Tip(ch).book.txs, a);
      CountsUpConcat(NoncesOf(History(front), a), NoncesOf(Tip(ch).book.txs, a), Get(ch[0].book.nonces, a));
    } else {
      NoNonces(a, Get(ch[0].book.nonces, a));
    }
  }

  /** A wrapping count repeats no number exactly while it is at most 2^32 long. */
  lemma CountsUpDistinctIff(ns: seq<u32>, k: u32)
    requires CountsUp(ns, k)
    ensures (forall p, q :: 0 <= p < q < |ns| ==> ns[p] != ns[q]) <==> |ns| <= 0x1_0000_0000
  {
    if |ns| > 0x1_0000_0000 {
      assert ns[0] == ns[0x1_0000_0000];
    } else {
      forall p, q | 0 <= p < q < |ns| ensures ns[p] != ns[q] {
        assert 0 < q - p < 0x1_0000_0000;
      }
    }
  }

  lemma NonceAt(txs: seq<TxEntry>, i: nat, a: Address)
    requires i < |txs| && txs[i].tx.info.from == a
    ensures |NoncesOf(txs[..i], a)| < |NoncesOf(txs, a)|
    ensures NoncesOf(txs, a)[|NoncesOf(txs[..i], a)|] == txs[i].tx.info.nonce
    ensures |NoncesOf(txs[..i + 1], a)| == |NoncesOf(txs[..i], a)| + 1
  {
    assert txs[..i + 1][..i] == txs[..i];
    assert txs == txs[..i + 1] + txs[i + 1..];
    NoncesOfConcat(txs[..i + 1], txs[i + 1..], a);
  }

  /** A sender's nonce enters a chain once, so no transaction enters it twice and no re-signed copy of
      one does, although each block only checks itself for duplicates. */
  lemma NoTransactionTwice(env: Env, ch: seq<BlockVal>, i: nat, j: nat)
    requires Chain(env, ch) && i < j < |History(ch)|
    requires |NoncesOf(History(ch), History(ch)[i].tx.info.from)| <= 0x1_0000_0000
    ensures var s, t := History(ch)[i].tx.info, History(ch)[j].tx.info; s.from != t.from || s.nonce != t.nonce
  {
    hide History;
    hide Rerun;
    var s := History(ch);
    var a := s[i].tx.info.from;
    if s[i].tx.info.from == s[j].tx.info.from && s[i].tx.info.nonce == s[j].tx.info.nonce {
      ChainCountsNonces(env, ch, a);
      CountsUpDistinctIff(NoncesOf(s, a), Get(ch[0].book.nonces, a));
      NonceAt(s, i, a);
      NonceAt(s, j, a);
      assert s[..j] == s[..i + 1] + s[i + 1..j];
      NoncesOfConcat(s[..i + 1], s[i + 1..j], a);
    }
  }

  // ---------------------------------------------------------------- agreement

  lemma RootsHaveHeightZero(env: Env, ch: seq<BlockVal>)
    requires Chain(env, ch)
    ensures |ch| == 1 <==> Tip(ch).meta.height == 0
  {
    hide Rerun;
    if |ch| > 1 { assert Link(env, ch[|ch| - 2], ch[|ch| - 1]); }
  }

  lemma {:induction false} SameTipSameHeaders(env: Env, c: seq<BlockVal>, d: seq<BlockVal>)
    requires Ideal(env) && Chain(env, c) && Chain(env, d)
    requires HashOf(env, Tip(c)) == HashOf(env, Tip(d))
    ensures |c| == |d|
    ensures forall i :: 0 <= i < |c| ==> c[i].meta == d[i].meta && c[i].book.txs == d[i].book.txs
    decreases |c|
  {
    hide Rerun;
    SameHash(env, Tip(c), Tip(d));
    RootsHaveHeightZero(env, c);
    RootsHaveHeightZero(env, d);
    if |c| > 1 {
      assert Link(env, c[|c| - 2], c[|c| - 1]) && Link(env, d[|d| - 2], d[|d| - 1]);
      var c', d' := c[..|c| - 1], d[..|d| - 1];
      ChainPrefix(env, c, |c| - 1);
      ChainPrefix(env, d, |d| - 1);
      SameTipSameHeaders(env, c', d');
      forall i | 0 <= i < |c|
        ensures c[i].meta == d[i].meta && c[i].book.txs == d[i].book.txs
      {
        if i < |c| - 1 { assert c[i] == c'[i] && d[i] == d'[i]; }
      }
    }
  }

  lemma {:induction false} SameRootSameLedgers(env: Env, c: seq<BlockVal>, d: seq<BlockVal>, n: nat)
    requires Chain(env, c) && Chain(env, d) && |c| == |d| && n < |c|
    requires forall i :: 0 <= i < |c| ==> c[i].meta == d[i].meta && c[i].book.txs == d[i].book.txs
    requires c[0].book == d[0].book
    ensures c[n] == d[n]
  {
    hide Rerun;
    if n > 0 {
      SameRootSameLedgers(env, c, d, n - 1);
      assert Link(env, c[n - 1], c[n]) && Link(env, d[n - 1], d[n]);
    }
  }

  /** Two chains that end in the same hash have the same headers and transactions; they agree on every
      ledger exactly when their roots carry the same ledger, which the hash does not cover. */
  lemma AgreementIffSameRoot(env: Env, c: seq<BlockVal>, d: seq<BlockVal>)
    requires Ideal(env) && Chain(env, c) && Chain(env, d)
    requires HashOf(env, Tip(c)) == HashOf(env, Tip(d))
    ensures |c| == |d|
    ensures c == d <==> c[0].book == d[0].book
  {
    hide Rerun;
    SameTipSameHeaders(env, c, d);
    if c[0].book == d[0].book {
      forall n | 0 <= n < |c| ensures c[n] == d[n] {
        SameRootSameLedgers(env, c, d, n);
      }
    }
  }

  /** The two books say the same about one address. */
  ghost predicate Balanced(c: Book, d: Book, a: Address) {
    Get(c.balances, a) == Get(d.balances, a)
  }

  ghost predicate Numbered(c: Book, d: Book, a: Address) {
    Get(c.nonces, a) == Get(d.nonces, a)
  }

  lemma WrapCancels(x: u32, y: u32, d: int)
    ensures Wrap(x + d) == Wrap(y + d) <==> x == y
  {
  }

  lemma ApplyAgrees(env: Env, c: Book, d: Book, tx: Transaction, a: Address)
    requires Apply(env, c, tx).Accepted? && Apply(env, d, tx).Accepted?
    ensures Balanced(Apply(env, c, tx).book, Apply(env, d, tx).book, a) <==> Balanced(c, d, a)
    ensures Numbered(Apply(env, c, tx).book, Apply(env, d, tx).book, a) <==> Numbered(c, d, a)
  {
    hide Apply;
    hide Contains;
    hide Get;
    hide Has;
    hide PaidTo;
    ApplyRefinesMaps(env, c, tx);
    ApplyRefinesMaps(env, d, tx);
    WrapCancels(Get(c.balances, a), Get(d.balances, a), PaidTo(tx.info.outputs, a) - Debit(tx, a));
    WrapCancels(Get(c.nonces, a), Get(d.nonces, a), 1);
    hide Wrap;
  }

  lemma {:induction false} ReplayAgrees(env: Env, c: Book, d: Book, txs: seq<TxEntry>, a: Address)
    requires Replay(env, c, txs).Accepted? && Replay(env, d, txs).Accepted?
    ensures Balanced(Replay(env, c, txs).book, Replay(env, d, txs).book, a) <==> Balanced(c, d, a)
    ensures Numbered(Replay(env, c, txs).book, Replay(env, d, txs).book, a) <==> Numbered(c, d, a)
    decreases |txs|
  {
    hide Apply;
    hide Balanced;
    hide Numbered;
    if txs != [] {
      ApplyAgrees(env, c, d, txs[0].tx, a);
      ReplayAgrees(env, Apply(env, c, txs[0].tx).book, Apply(env, d, txs[0].tx).book, txs[1..], a);
    }
  }

  lemma LinkAgrees(env: Env, p: BlockVal, b: BlockVal, q: BlockVal, c: BlockVal, a: Address)
    requires Link(env, p, b) && Link(env, q, c) && p.meta == q.meta && b.book.txs == c.book.txs
    ensures Balanced(b.book, c.book, a) <==> Balanced(p.book, q.book, a)
    ensures Numbered(b.book, c.book, a) <==> Numbered(p.book, q.book, a)
  {
    hide Replay;
    hide Balanced;
    hide Numbered;
    LinkIsReplay(env, p, b);
    LinkIsReplay(env, q, c);
    ReplayAgrees(env, Base(p), Base(q), b.book.txs, a);
    BasesAgree(p, q, a);
    hide Link;
  }

  lemma BasesAgree(p: BlockVal, q: BlockVal, a: Address)
    requires p.meta == q.meta
    ensures Balanced(Base(p), Base(q), a) <==> Balanced(p.book, q.book, a)
    ensures Numbered(Base(p), Base(q), a) <==> Numbered(p.book, q.book, a)
  {
    hide Rewarded;
    hide Get;
    RewardedIs(p);
    RewardedIs(q);
    WrapCancels(Get(p.book.balances, a), Get(q.book.balances, a), Reward(p, a));
    hide Wrap;
  }

  lemma {:induction false} HeadersAgree(env: Env, c: seq<BlockVal>, d: seq<BlockVal>, n: nat, a: Address)
    requires Chain(env, c) && Chain(env, d) && |c| == |d| && n < |c|
    requires forall i :: 0 <= i < |c| ==> c[i].meta == d[i].meta && c[i].book.txs == d[i].book.txs
    ensures Balanced(c[n].book, d[n].book, a) <==> Balanced(c[0].book, d[0].book, a)
    ensures Numbered(c[n].book, d[n].book, a) <==> Numbered(c[0].book, d[0].book, a)
  {
    hide Link;
    hide Balanced;
    hide Numbered;
    if n > 0 {
      HeadersAgree(env, c, d, n - 1, a);
      assert Link(env, c[n - 1], c[n]) && Link(env, d[n - 1], d[n]);
      LinkAgrees(env, c[n - 1], c[n], d[n - 1], d[n], a);
    }
  }

  /** Agreement, address by address: two chains that end in the same hash say the same about the balance,
      or the next nonce, of an address exactly when their roots do. */
  lemma TipsAgreeIff(env: Env, c: seq<BlockVal>, d: seq<BlockVal>, a: Address)
    requires Ideal(env) && Chain(env, c) && Chain(env, d)
    requires HashOf(env, Tip(c)) == HashOf(env, Tip(d))
    ensures Get(Tip(c).book.balances, a) == Get(Tip(d).book.balances, a)
            <==> Get(c[0].book.balances, a) == Get(d[0].book.balances, a)
    ensures Get(Tip(c).book.nonces, a) == Get(Tip(d).book.nonces, a)
            <==> Get(c[0].book.nonces, a) == Get(d[0].book.nonces, a)
  {
    hide Link;
    SameTipSameHeaders(env, c, d);
    HeadersAgree(env, c, d, |c| - 1, a);
  }

  /** Address by address, and not entry by entry: roots that list an address with balance 0 and roots that
      do not list it at all say the same about it, and may even have the very same child. */
  lemma ListsMayConverge(env: Env, m: Meta, tx: Transaction)
    requires tx.info == TransactionInfo("a", 0, "", 0, [Output("x", 1)], "") && tx.sig.Some? && Verified(env, tx)
    requires m.height == 0 && m.rewardAddr == ""
    ensures var p, q := BlockVal(m, Book([], [Entry("a", 1)], [])), BlockVal(m, Book([], [Entry("a", 1), Entry("x", 0)], []));
            p != q && exists b :: Link(env, p, b) && Link(env, q, b)
  {
    var p, q := BlockVal(m, Book([], [Entry("a", 1)], [])), BlockVal(m, Book([], [Entry("a", 1), Entry("x", 0)], []));
    var e := TxEntry(IdOf(env, tx), tx);
    var paid := Book([e], [Entry("a", 0), Entry("x", 1)], [Entry("a", 1)]);
    PaysOne(env, p.book, tx);
    PaysOne(env, q.book, tx);
    assert p.book != q.book by { assert |p.book.balances| != |q.book.balances|; }
    hide Apply;
    assert [e][1..] == [] && Replay(env, paid, []) == Accepted(paid);
    assert Replay(env, p.book, [e]) == Accepted(paid);
    assert Replay(env, q.book, [e]) == Accepted(paid);
    var b := BlockVal(Meta(HashOf(env, p), 1, 0, 1, 0, "", 0), paid);
    assert Link(env, p, b) && Link(env, q, b);
  }

  lemma PaysOne(env: Env, book: Book, tx: Transaction)
    requires tx.info == TransactionInfo("a", 0, "", 0, [Output("x", 1)], "") && tx.sig.Some? && Verified(env, tx)
    requires book == Book([], [Entry("a", 1)], []) || book == Book([], [Entry("a", 1), Entry("x", 0)], [])
    ensures Apply(env, book, tx) == Accepted(Book([TxEntry(IdOf(env, tx), tx)], [Entry("a", 0), Entry("x", 1)], [Entry("a", 1)]))
  {
    var outputs := [Output("x", 1)];
    var debited := Put(book.balances, "a", 0);
    assert outputs[..0] == [];
    assert Paid([]) == 0 && Credit(debited, []) == debited;
    assert Paid(outputs) == 1 && TotalOutput(tx) == 1;
    assert debited == if |book.balances| == 1 then [Entry("a", 0)] else [Entry("a", 0), Entry("x", 0)];
    assert Get(debited, "x") == 0;
    assert Put(debited, "x", 1) == [Entry("a", 0), Entry("x", 1)];
    assert Credit(debited, outputs) == [Entry("a", 0), Entry("x", 1)];
    assert WithNonceEntry([], "a") == [Entry("a", 0)];
    assert Put([Entry("a", 0)], "a", 1) == [Entry("a", 1)];
  }

  /** The condition is needed: two roots with one hash and different ledgers. */
  lemma RootsMayDisagree(env: Env, m: Meta)
    requires m.height == 0
    ensures var c, d := [BlockVal(m, Book([], [], []))], [BlockVal(m, Book([], [Entry("a", 1)], []))];
            Chain(env, c) && Chain(env, d) && HashOf(env, Tip(c)) == HashOf(env, Tip(d)) && c != d
  {
    assert BlockVal(m, Book([], [], [])).book.balances != BlockVal(m, Book([], [Entry("a", 1)], [])).book.balances;
  }
}
