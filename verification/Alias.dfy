/** What SyncTransaction really returns under Go 1.18, where a range loop has one variable: the sets hold
    pointers to that variable, so that after the loop over a block every transaction of the block is shown as
    its last one. When this is what is meant, and when it is not. */
module Aliases {
  import opened Prelude
  import opened Ledger
  import opened Chains
  import opened Store
  import opened Honest
  import opened Mining
  import opened Forks

  function LastTx(b: BlockVal): Transaction
    requires b.book.txs != []
  {
    b.book.txs[|b.book.txs| - 1].tx
  }

  /** The items that one pass over a block adds: by the time it ends they all show its last transaction. */
  ghost function Pass(env: Env, b: BlockVal): map<TxId, Transaction> {
    if b.book.txs == [] then map[] else map e | e in b.book.txs :: IdOf(env, e.tx) := LastTx(b)
  }

  /** The items of a set by their keys, once the blocks have been passed from the top: a key is the id that a
      transaction had when it was added, and Add never overwrites. */
  ghost function Pointers(env: Env, bs: seq<BlockVal>): map<TxId, Transaction> {
    if bs == [] then map[] else Pass(env, bs[0]) + Pointers(env, bs[1..])
  }

  /** The items left once those of the new branch d are removed by what they show; the pool then takes them by
      what they show, too. */
  ghost function Aliased(env: Env, c: seq<BlockVal>, d: seq<BlockVal>): set<Transaction> {
    (Pointers(env, c) - set t | t in Pointers(env, d).Values :: IdOf(env, t)).Values
  }

  /** Miner.SyncTransaction as it runs; it walks and crashes as Forks.SyncTransaction does. */
  ghost function AliasedSync(env: Env, blocks: map<Hash, BlockVal>, cur: BlockVal, new_: BlockVal): Option<set<Transaction>> {
    var c, d := Trail(blocks, cur), Trail(blocks, new_);
    match Lockstep(env, c, d[..Level(d, cur.meta.height)])
    case None => None
    case Some(left) => Some(Aliased(env, Above(c, left.0), Above(d, left.1)))
  }

  function Above(c: seq<BlockVal>, k: nat): seq<BlockVal> {
    if k <= |c| then c[k..] else []
  }

  /** No transaction is in two of the blocks. */
  ghost predicate NoneTwice(bs: seq<BlockVal>) {
    forall i, j, t :: 0 <= i < j < |bs| && t in TxSet(bs[i].book.txs) ==> t !in TxSet(bs[j].book.txs)
  }

  /** t is the last transaction of one of the blocks. */
  ghost predicate IsLast(bs: seq<BlockVal>, t: Transaction) {
    exists i :: 0 <= i < |bs| && Ends(bs[i], t)
  }

  predicate Ends(b: BlockVal, t: Transaction) {
    b.book.txs != [] && LastTx(b) == t
  }

  /** Every key is the id of a transaction of one of the blocks, and shows the last transaction of that block. */
  lemma {:induction false} PointersAre(env: Env, bs: seq<BlockVal>, t: Transaction)
    requires Ideal(env) && NoneTwice(bs)
    ensures IdOf(env, t) in Pointers(env, bs) <==> OnBranch(bs, t)
    ensures forall i :: 0 <= i < |bs| && t in TxSet(bs[i].book.txs) ==>
              IdOf(env, t) in Pointers(env, bs) && Ends(bs[i], Pointers(env, bs)[IdOf(env, t)])
  {
    if bs != [] {
      var rest := bs[1..];
      forall i, j, u | 0 <= i < j < |rest| && u in TxSet(rest[i].book.txs) ensures u !in TxSet(rest[j].book.txs) {
        assert rest[i] == bs[i + 1] && rest[j] == bs[j + 1];
      }
      PointersAre(env, rest, t);
      OnBranchStep(bs, t);
      forall u | IdOf(env, u) == IdOf(env, t) ensures u == t { SameId(env, u, t); }
      hide Ideal;
      hide IdOf;
      forall i | 0 <= i < |bs| && t in TxSet(bs[i].book.txs)
        ensures IdOf(env, t) in Pointers(env, bs) && Ends(bs[i], Pointers(env, bs)[IdOf(env, t)])
      {
        if i > 0 {
          assert rest[i - 1] == bs[i];
        } else {
          assert !OnBranch(rest, t);
        }
      }
    }
  }

  lemma OnBranchStep(bs: seq<BlockVal>, t: Transaction)
    requires bs != []
    ensures OnBranch(bs, t) <==> t in TxSet(bs[0].book.txs) || OnBranch(bs[1..], t)
  {
    hide TxSet;
    if OnBranch(bs, t) {
      var i :| 0 <= i < |bs| && t in TxSet(bs[i].book.txs);
      if i > 0 { assert bs[1..][i - 1] == bs[i]; }
    }
    if OnBranch(bs[1..], t) {
      var i :| 0 <= i < |bs[1..]| && t in TxSet(bs[1..][i].book.txs);
      assert bs[i + 1] == bs[1..][i];
    }
  }

  lemma {:induction false} KeysAreIds(env: Env, bs: seq<BlockVal>, id: TxId) returns (t: Transaction)
    requires id in Pointers(env, bs)
    ensures IdOf(env, t) == id && OnBranch(bs, t)
  {
    if id in Pointers(env, bs[1..]) {
      t := KeysAreIds(env, bs[1..], id);
    } else {
      var e :| e in bs[0].book.txs && IdOf(env, e.tx) == id;
      t := e.tx;
    }
    OnBranchStep(bs, t);
  }

  lemma ShownAre(env: Env, bs: seq<BlockVal>, t: Transaction)
    requires Ideal(env) && NoneTwice(bs)
    ensures t in Pointers(env, bs).Values <==> IsLast(bs, t)
  {
    hide Pointers;
    hide TxSet;
    hide Ideal;
    hide IdOf;
    hide Ends;
    if t in Pointers(env, bs).Values {
      var id :| id in Pointers(env, bs) && Pointers(env, bs)[id] == t;
      var u := KeysAreIds(env, bs, id);
      PointersAre(env, bs, u);
      var i :| 0 <= i < |bs| && u in TxSet(bs[i].book.txs);
      assert Ends(bs[i], t);
    }
    if IsLast(bs, t) {
      var i :| 0 <= i < |bs| && Ends(bs[i], t);
      EndIsIn(bs[i], t);
      PointersAre(env, bs, t);
      OneEnd(bs[i], t, Pointers(env, bs)[IdOf(env, t)]);
    }
  }

  lemma EndIsIn(b: BlockVal, t: Transaction)
    requires Ends(b, t)
    ensures t in TxSet(b.book.txs)
  {
  }

  lemma OneEnd(b: BlockVal, t: Transaction, u: Transaction)
    requires Ends(b, t) && Ends(b, u)
    ensures t == u
  {
  }

  /** A transaction is returned exactly if it ends a block of c one of whose transactions ends no block of d. */
  lemma AliasedAre(env: Env, c: seq<BlockVal>, d: seq<BlockVal>, t: Transaction)
    requires Ideal(env) && NoneTwice(c) && NoneTwice(d)
    ensures t in Aliased(env, c, d) <==> exists i, u :: 0 <= i < |c| && u in TxSet(c[i].book.txs) && Ends(c[i], t) && !IsLast(d, u)
  {
    hide Pointers;
    hide TxSet;
    hide NoneTwice;
    hide Ends;
    hide IsLast;
    hide IdOf;
    var shown := set x | x in Pointers(env, d).Values :: IdOf(env, x);
    forall u ensures IdOf(env, u) in shown <==> IsLast(d, u) {
      ShownAre(env, d, u);
      if IdOf(env, u) in shown {
        var x :| x in Pointers(env, d).Values && IdOf(env, x) == IdOf(env, u);
        SameId(env, x, u);
      }
    }
    hide Ideal;
    if t in Aliased(env, c, d) {
      var id :| id in Pointers(env, c) && id !in shown && Pointers(env, c)[id] == t;
      var u := KeysAreIds(env, c, id);
      PointersAre(env, c, u);
      var i :| 0 <= i < |c| && u in TxSet(c[i].book.txs);
      assert Ends(c[i], t) && !IsLast(d, u);
    }
    if i, u :| 0 <= i < |c| && u in TxSet(c[i].book.txs) && Ends(c[i], t) && !IsLast(d, u) {
      PointersAre(env, c, u);
      OneEnd(c[i], t, Pointers(env, c)[IdOf(env, u)]);
      assert IdOf(env, u) in Pointers(env, c) - shown;
    }
  }

  /** Either the new branch shows all transactions of b, or it has all of them but the last. */
  ghost predicate Harmless(b: BlockVal, d: seq<BlockVal>) {
    || (forall t :: t in TxSet(b.book.txs) ==> IsLast(d, t))
    || (forall t :: t in TxSet(b.book.txs) ==> (OnBranch(d, t) <==> !Ends(b, t)))
  }

  lemma LastIsOn(d: seq<BlockVal>, t: Transaction)
    requires IsLast(d, t)
    ensures OnBranch(d, t)
  {
    var i :| 0 <= i < |d| && Ends(d[i], t);
    EndIsIn(d[i], t);
  }

  lemma HasEnd(b: BlockVal, t: Transaction) returns (u: Transaction)
    requires t in TxSet(b.book.txs)
    ensures Ends(b, u) && u in TxSet(b.book.txs)
  {
    u := LastTx(b);
    EndIsIn(b, u);
  }

  /** What is returned is what the abandoned branch has and the new one lacks exactly when every block of the
      abandoned branch is harmless. */
  lemma AliasedAgreesIff(env: Env, c: seq<BlockVal>, d: seq<BlockVal>)
    requires Ideal(env) && NoneTwice(c) && NoneTwice(d)
    ensures Aliased(env, c, d) == BranchTxs(c) - BranchTxs(d) <==> forall b :: b in c ==> Harmless(b, d)
  {
    hide Aliased;
    hide BranchTxs;
    hide TxSet;
    hide Ends;
    hide IsLast;
    hide Harmless;
    if Aliased(env, c, d) == BranchTxs(c) - BranchTxs(d) {
      forall b | b in c ensures Harmless(b, d) {
        var i :| 0 <= i < |c| && c[i] == b;
        AgreeingIsHarmless(env, c, d, i);
      }
    }
    if forall b :: b in c ==> Harmless(b, d) {
      forall t ensures t in Aliased(env, c, d) <==> t in BranchTxs(c) - BranchTxs(d) {
        HarmlessAgrees(env, c, d, t);
      }
    }
  }

  lemma AgreeingEnds(env: Env, c: seq<BlockVal>, d: seq<BlockVal>, i: nat, t: Transaction)
    requires Ideal(env) && NoneTwice(c) && NoneTwice(d) && i < |c| && t in TxSet(c[i].book.txs)
    requires Aliased(env, c, d) == BranchTxs(c) - BranchTxs(d) && !OnBranch(d, t)
    ensures Ends(c[i], t)
  {
    hide Aliased;
    hide BranchTxs;
    hide TxSet;
    hide Ends;
    hide IsLast;
    BranchTxsAre(c, t);
    BranchTxsAre(d, t);
    AliasedAre(env, c, d, t);
    var j, u :| 0 <= j < |c| && u in TxSet(c[j].book.txs) && Ends(c[j], t) && !IsLast(d, u);
    EndIsIn(c[j], t);
    assert i == j;
  }

  lemma AgreeingIsHarmless(env: Env, c: seq<BlockVal>, d: seq<BlockVal>, i: nat)
    requires Ideal(env) && NoneTwice(c) && NoneTwice(d) && i < |c|
    requires Aliased(env, c, d) == BranchTxs(c) - BranchTxs(d)
    ensures Harmless(c[i], d)
  {
    hide Aliased;
    hide BranchTxs;
    hide TxSet;
    hide Ends;
    hide IsLast;
    hide OnBranch;
    hide NoneTwice;
    var s := TxSet(c[i].book.txs);
    if v :| v in s && !IsLast(d, v) {
      var last := HasEnd(c[i], v);
      AliasedAre(env, c, d, last);
      BranchTxsAre(d, last);
      forall t | t in s ensures OnBranch(d, t) <==> !Ends(c[i], t) {
        if Ends(c[i], t) { OneEnd(c[i], t, last); }
        if !OnBranch(d, t) { AgreeingEnds(env, c, d, i, t); }
      }
    }
  }

  lemma HarmlessAgrees(env: Env, c: seq<BlockVal>, d: seq<BlockVal>, t: Transaction)
    requires Ideal(env) && NoneTwice(c) && NoneTwice(d)
    requires forall b :: b in c ==> Harmless(b, d)
    ensures t in Aliased(env, c, d) <==> t in BranchTxs(c) - BranchTxs(d)
  {
    hide Aliased;
    hide BranchTxs;
    hide TxSet;
    hide Ends;
    hide IsLast;
    AliasedAre(env, c, d, t);
    BranchTxsAre(c, t);
    BranchTxsAre(d, t);
    if t in Aliased(env, c, d) {
      var i, u :| 0 <= i < |c| && u in TxSet(c[i].book.txs) && Ends(c[i], t) && !IsLast(d, u);
      EndIsIn(c[i], t);
      assert c[i] in c;
      assert Harmless(c[i], d);
    }
    if OnBranch(c, t) && !OnBranch(d, t) {
      var i :| 0 <= i < |c| && t in TxSet(c[i].book.txs);
      if IsLast(d, t) { LastIsOn(d, t); }
      assert c[i] in c;
      assert Harmless(c[i], d);
      assert Ends(c[i], t);
    }
  }

  /** One transaction a block is enough. */
  lemma SinglesAgree(env: Env, c: seq<BlockVal>, d: seq<BlockVal>)
    requires Ideal(env) && NoneTwice(c) && NoneTwice(d)
    requires forall b :: b in c + d ==> |b.book.txs| <= 1
    ensures Aliased(env, c, d) == BranchTxs(c) - BranchTxs(d)
  {
    forall b | b in c ensures Harmless(b, d) {
      assert b in c + d;
      forall t | t in TxSet(b.book.txs) && OnBranch(d, t) ensures IsLast(d, t) {
        var j :| 0 <= j < |d| && t in TxSet(d[j].book.txs);
        assert d[j] in c + d && Ends(d[j], t);
      }
    }
    AliasedAgreesIff(env, c, d);
  }

  /** A block with two transactions that the new branch lacks: the first is lost. */
  lemma FirstOfTwoIsLost(env: Env, b: BlockVal, s: TxEntry, t: TxEntry)
    requires Ideal(env) && b.book.txs == [s, t] && s.tx != t.tx
    ensures Aliased(env, [b], []) == {t.tx} && BranchTxs([b]) - BranchTxs([]) == {s.tx, t.tx}
  {
    hide Ideal;
    assert TxSet(b.book.txs) == {s.tx, t.tx} by { assert s in b.book.txs && t in b.book.txs; }
    assert [b][1..] == [] && BranchTxs([b][1..]) == {};
    hide TxSet;
    hide BranchTxs;
    hide Aliased;
    forall x ensures x in Aliased(env, [b], []) <==> x == t.tx {
      AliasedAre(env, [b], [], x);
      assert [b][0] == b;
      if x == t.tx { assert x in TxSet([b][0].book.txs) && Ends([b][0], x) && !IsLast([], x); }
    }
  }

  // ---------------------------------------------------------------- on a store

  /** The walk is the same; only what it returns differs. */
  lemma AliasedSyncIs(env: Env, blocks: map<Hash, BlockVal>, cur: BlockVal, new_: BlockVal)
    requires Ideal(env) && Keyed(env, blocks)
    ensures var c, d, s := Trail(blocks, cur), Trail(blocks, new_), AliasedSync(env, blocks, cur, new_);
            && (s.None? <==> SyncTransaction(env, blocks, cur, new_).None?)
            && (Level(d, cur.meta.height) == |c| ==> s == Some(Aliased(env, c[Meet(env, c, d)..], d[Meet(env, c, d)..])))
  {
    hide Keyed;
    hide Ideal;
    hide Trail;
    hide Level;
    hide Lockstep;
    hide Meet;
    hide Aliased;
    WalkEnds(env, blocks, cur, new_);
    SyncCrashesIff(env, blocks, cur, new_);
    hide SyncTransaction;
  }

  /** No sender has more than 2^32 transactions on the chain. */
  ghost predicate FewEnough(ch: seq<BlockVal>) {
    forall a :: |NoncesOf(History(ch), a)| <= 0x1_0000_0000
  }

  lemma SuffixNoneTwice(ch: seq<BlockVal>, k: nat)
    requires NoneTwice(ch) && k <= |ch|
    ensures NoneTwice(ch[k..])
  {
    hide TxSet;
  }

  lemma CurrentNoneTwice(env: Env, w: World, n: NodeVal)
    requires Lawful(env, w) && MinerInv(env, w, n) && n.current.Some?
    requires FewEnough(Ancestry(n.blocks, n.current.value))
    ensures NoneTwice(Ancestry(n.blocks, n.current.value))
  {
    hide Lawful;
    hide MinerInv;
    hide TxSet;
    hide History;
    hide NoncesOf;
    hide Ancestry;
    var c := Ancestry(n.blocks, n.current.value);
    forall i, j, t | 0 <= i < j < |c| && t in TxSet(c[i].book.txs) ensures t !in TxSet(c[j].book.txs) {
      CurrentRepeatsNothing(env, w, n, i, j, t);
    }
  }

  lemma StoredNoneTwice(env: Env, w: World, m: NodeVal, b: BlockVal)
    requires Lawful(env, w) && HonestNode(env, w, m) && HashOf(env, b) in m.blocks && m.blocks[HashOf(env, b)] == b
    requires FewEnough(Ancestry(m.blocks, b))
    ensures NoneTwice(Ancestry(m.blocks, b))
  {
    hide Lawful;
    hide TxSet;
    hide History;
    hide NoncesOf;
    hide Ancestry;
    hide Good;
    hide Chain;
    hide TreeInv;
    hide HashOf;
    HonestChain(env, w, m, b);
    HeightsArePositions(env, w, m, b);
    hide HonestNode;
    GenesisIsEmpty(env, w);
    var d := Ancestry(m.blocks, b);
    forall i, j, t | 0 <= i < j < |d| && t in TxSet(d[i].book.txs) ensures t !in TxSet(d[j].book.txs) {
      if i > 0 { BlocksShareNothing(env, d, i, j, t); } else { NothingIn(d[0], t); }
    }
  }

  lemma HonestChain(env: Env, w: World, m: NodeVal, b: BlockVal)
    requires HonestNode(env, w, m) && HashOf(env, b) in m.blocks && m.blocks[HashOf(env, b)] == b
    ensures Chain(env, Ancestry(m.blocks, b))
  {
    hide TreeInv;
    hide Chain;
    PathIsChain(env, m.blocks, b);
  }

  lemma BranchesRepeatNothing(env: Env, w: World, n: NodeVal, m: NodeVal, b: BlockVal, c: seq<BlockVal>, d: seq<BlockVal>, k: nat)
    requires Lawful(env, w) && Branches(env, w, n, m, b, c, d) && FewEnough(c) && FewEnough(d)
    requires k <= |c| && k <= |d|
    ensures NoneTwice(c[k..]) && NoneTwice(d[k..])
  {
    hide Lawful;
    hide MinerInv;
    hide HonestNode;
    hide NoneTwice;
    hide FewEnough;
    hide Ancestry;
    hide HashLinked;
    BranchesLink(env, w, n, m, b, c, d);
    CurrentNoneTwice(env, w, n);
    StoredNoneTwice(env, w, m, b);
    SuffixNoneTwice(c, k);
    SuffixNoneTwice(d, k);
  }

  lemma NothingIn(b: BlockVal, t: Transaction)
    requires b.book.txs == []
    ensures t !in TxSet(b.book.txs)
  {
  }

  /** In honest runs the program returns what is meant exactly when every abandoned block above the fork point
      is harmless. */
  lemma HonestAliases(env: Env, w: World, n: NodeVal, m: NodeVal, b: BlockVal, c: seq<BlockVal>, d: seq<BlockVal>)
    requires Lawful(env, w) && Branches(env, w, n, m, b, c, d) && b.meta.height >= n.current.value.meta.height
    requires FewEnough(c) && FewEnough(d)
    ensures var k := Meet(env, c, d);
            && AliasedSync(env, m.blocks, n.current.value, b) == Some(Aliased(env, c[k..], d[k..]))
            && (AliasedSync(env, m.blocks, n.current.value, b) == SyncTransaction(env, m.blocks, n.current.value, b)
                <==> forall x :: x in c[k..] ==> Harmless(x, d[k..]))
  {
    hide Lawful;
    hide MinerInv;
    hide HonestNode;
    hide Extends;
    hide Keyed;
    hide Ideal;
    hide SyncTransaction;
    hide AliasedSync;
    hide Aliased;
    hide Meet;
    hide FewEnough;
    hide NoneTwice;
    hide Harmless;
    hide BranchTxs;
    var k := Meet(env, c, d);
    HonestTrails(env, w, n, m, b);
    HonestSyncs(env, w, n, m, b);
    AliasedSyncIs(env, m.blocks, n.current.value, b);
    BranchesRepeatNothing(env, w, n, m, b, c, d, k);
    AliasedAgreesIff(env, c[k..], d[k..]);
  }
}
