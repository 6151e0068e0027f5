/** Moving between branches: the fork point, the transactions to carry over, the walk that finds both and
    where it crashes, and the miner's cut-over. */
module Forks {
  import opened Prelude
  import opened Ledger
  import opened Chains
  import opened Store
  import opened Honest
  import opened Mining

  // ---------------------------------------------------------------- the fork point

  ghost predicate HashLinked(env: Env, ch: seq<BlockVal>) {
    forall i :: 0 < i < |ch| ==> ch[i].meta.prev == HashOf(env, ch[i - 1])
  }

  function MeetBelow(env: Env, c: seq<BlockVal>, d: seq<BlockVal>, k: nat): (m: nat)
    requires k <= |c| && k <= |d|
    ensures m <= k
  {
    if k == 0 || HashOf(env, c[k - 1]) == HashOf(env, d[k - 1]) then k else MeetBelow(env, c, d, k - 1)
  }

  /** How many blocks two branches share, found by walking down from equal heights. */
  function Meet(env: Env, c: seq<BlockVal>, d: seq<BlockVal>): (m: nat)
    ensures m <= |c| && m <= |d|
  {
    MeetBelow(env, c, d, if |c| <= |d| then |c| else |d|)
  }

  lemma {:induction false} MeetBelowStops(env: Env, c: seq<BlockVal>, d: seq<BlockVal>, k: nat)
    requires k <= |c| && k <= |d|
    ensures var m := MeetBelow(env, c, d, k);
            && (m > 0 ==> HashOf(env, c[m - 1]) == HashOf(env, d[m - 1]))
            && forall i :: m <= i < k ==> HashOf(env, c[i]) != HashOf(env, d[i])
  {
    hide HashOf;
    if !(k == 0 || HashOf(env, c[k - 1]) == HashOf(env, d[k - 1])) {
      MeetBelowStops(env, c, d, k - 1);
    }
  }

  lemma {:induction false} SharedBelow(env: Env, c: seq<BlockVal>, d: seq<BlockVal>, m: nat, i: nat)
    requires Ideal(env) && HashLinked(env, c) && HashLinked(env, d)
    requires i < m <= |c| && m <= |d| && HashOf(env, c[m - 1]) == HashOf(env, d[m - 1])
    ensures HashOf(env, c[i]) == HashOf(env, d[i])
  {
    if i < m - 1 {
      SameHash(env, c[m - 1], d[m - 1]);
      assert c[m - 1].meta.prev == HashOf(env, c[m - 2]) && d[m - 1].meta.prev == HashOf(env, d[m - 2]);
      SharedBelow(env, c, d, m - 1, i);
    }
  }

  /** The walk stops at the lowest common ancestor: everything up to it is shared, nothing above is. */
  lemma MeetIsForkPoint(env: Env, c: seq<BlockVal>, d: seq<BlockVal>, i: nat)
    requires Ideal(env) && HashLinked(env, c) && HashLinked(env, d) && i < |c| && i < |d|
    ensures HashOf(env, c[i]) == HashOf(env, d[i]) <==> i < Meet(env, c, d)
  {
    hide HashOf;
    hide Ideal;
    hide HashLinked;
    MeetBelowStops(env, c, d, if |c| <= |d| then |c| else |d|);
    if i < Meet(env, c, d) {
      SharedBelow(env, c, d, Meet(env, c, d), i);
    }
  }

  // ---------------------------------------------------------------- transactions to carry over

  function TxSet(txs: seq<TxEntry>): set<Transaction> {
    set e | e in txs :: e.tx
  }

  function BranchTxs(bs: seq<BlockVal>): set<Transaction> {
    if bs == [] then {} else BranchTxs(bs[1..]) + TxSet(bs[0].book.txs)
  }

  /** The transactions of branch c above the fork point that branch d lacks above it. */
  ghost function Abandoned(env: Env, c: seq<BlockVal>, d: seq<BlockVal>): set<Transaction> {
    var k := Meet(env, c, d);
    BranchTxs(c[k..]) - BranchTxs(d[k..])
  }

  ghost predicate OnBranch(bs: seq<BlockVal>, tx: Transaction) {
    exists i :: 0 <= i < |bs| && tx in TxSet(bs[i].book.txs)
  }

  lemma {:induction false} BranchTxsAre(bs: seq<BlockVal>, tx: Transaction)
    ensures tx in BranchTxs(bs) <==> OnBranch(bs, tx)
  {
    hide TxSet;
    if bs != [] {
      BranchTxsAre(bs[1..], tx);
      if OnBranch(bs[1..], tx) {
        var i :| 0 <= i < |bs[1..]| && tx in TxSet(bs[1..][i].book.txs);
        assert bs[i + 1] == bs[1..][i];
      }
      if OnBranch(bs, tx) {
        var i :| 0 <= i < |bs| && tx in TxSet(bs[i].book.txs);
        if i > 0 { assert bs[1..][i - 1] == bs[i]; }
      }
    }
  }

  // ---------------------------------------------------------------- all stored ancestors

  /** ch follows parents from a block whose parent is not stored up to b, whatever the heights. */
  ghost predicate TrailTo(blocks: map<Hash, BlockVal>, ch: seq<BlockVal>, b: BlockVal) {
    && |ch| > 0 && Tip(ch) == b
    && ch[0].meta.prev !in blocks
    && forall i :: 0 < i < |ch| ==> ch[i].meta.prev in blocks && blocks[ch[i].meta.prev] == ch[i - 1]
  }

  ghost function Trail(blocks: map<Hash, BlockVal>, b: BlockVal): (ch: seq<BlockVal>)
    ensures |ch| > 0 && Tip(ch) == b
  {
    if exists ch :: TrailTo(blocks, ch, b) then var ch :| TrailTo(blocks, ch, b); ch else [b]
  }

  ghost predicate Keyed(env: Env, blocks: map<Hash, BlockVal>) {
    forall h :: h in blocks ==> HashOf(env, blocks[h]) == h
  }

  /** Parent links never run in circles, even below a root. */
  lemma {:induction false} TrailExists(env: Env, blocks: map<Hash, BlockVal>, b: BlockVal) returns (ch: seq<BlockVal>)
    requires Ideal(env) && Keyed(env, blocks)
    ensures TrailTo(blocks, ch, b)
    decreases env.age(b.meta.prev)
  {
    if b.meta.prev in blocks {
      var p := blocks[b.meta.prev];
      IsYounger(env, p);
      var below := TrailExists(env, blocks, p);
      ch := below + [b];
      assert Tip(below) == p;
    } else {
      ch := [b];
    }
  }

  lemma IsYounger(env: Env, b: BlockVal)
    requires Ideal(env)
    ensures env.age(b.meta.prev) < env.age(HashOf(env, b))
  {
    assert Header(b.meta, b.book.txs).meta.prev == b.meta.prev;
  }

  lemma {:induction false} TrailUnique(blocks: map<Hash, BlockVal>, c: seq<BlockVal>, d: seq<BlockVal>, b: BlockVal)
    requires TrailTo(blocks, c, b) && TrailTo(blocks, d, b)
    ensures c == d
    decreases |c|
  {
    if |c| > 1 || |d| > 1 {
      assert |c| > 1 && |d| > 1;
      TrailUnique(blocks, c[..|c| - 1], d[..|d| - 1], c[|c| - 2]);
      assert c == c[..|c| - 1] + [b] && d == d[..|d| - 1] + [b];
    }
  }

  lemma TrailIs(env: Env, blocks: map<Hash, BlockVal>, b: BlockVal)
    requires Ideal(env) && Keyed(env, blocks)
    ensures TrailTo(blocks, Trail(blocks, b), b)
  {
    var _ := TrailExists(env, blocks, b);
  }

  // ---------------------------------------------------------------- the walk of SyncTransaction

  /** How many blocks of d are left once those higher than h are dropped from its top; 0 where the program
      runs off the bottom and dereferences nil. */
  function Level(d: seq<BlockVal>, h: u32): (k: nat)
    ensures k <= |d|
    ensures |d| > 0 && d[0].meta.height <= h ==> k > 0
  {
    if d == [] || Tip(d).meta.height <= h then |d| else Level(d[..|d| - 1], h)
  }

  /** Walks down both branches in step until the hashes meet or the current branch c ends, and says how
      many blocks of each it left. None: d ended first, and the program hashes a nil block. */
  function Lockstep(env: Env, c: seq<BlockVal>, d: seq<BlockVal>): Option<(nat, nat)>
    requires |c| > 0
  {
    if d == [] then None
    else if HashOf(env, Tip(c)) == HashOf(env, Tip(d)) then Some((|c|, |d|))
    else if |c| == 1 then Some((0, |d| - 1))
    else Lockstep(env, c[..|c| - 1], d[..|d| - 1])
  }

  /** What the walk collects from the current branch c and not from the new branch d. */
  ghost function Carried(env: Env, c: seq<BlockVal>, d: seq<BlockVal>, h: u32): Option<set<Transaction>>
    requires |c| > 0
  {
    match Lockstep(env, c, d[..Level(d, h)])
    case None => None
    case Some(left) => Some(TxsAbove(c, left.0) - TxsAbove(d, left.1))
  }

  ghost function TxsAbove(c: seq<BlockVal>, k: nat): set<Transaction> {
    if k <= |c| then BranchTxs(c[k..]) else {}
  }

  /** Miner.SyncTransaction; None is a nil dereference. */
  ghost function SyncTransaction(env: Env, blocks: map<Hash, BlockVal>, cur: BlockVal, new_: BlockVal)
    : Option<set<Transaction>>
  {
    Carried(env, Trail(blocks, cur), Trail(blocks, new_), cur.meta.height)
  }

  /** Part of a trail, from its bottom. */
  ghost predicate Grounded(env: Env, blocks: map<Hash, BlockVal>, c: seq<BlockVal>) {
    && |c| > 0 && c[0].meta.prev !in blocks && HashLinked(env, c)
    && forall i :: 0 < i < |c| ==> c[i].meta.prev in blocks
  }

  lemma TrailIsGrounded(env: Env, blocks: map<Hash, BlockVal>, ch: seq<BlockVal>, b: BlockVal, k: nat)
    requires Keyed(env, blocks) && TrailTo(blocks, ch, b) && 0 < k <= |ch|
    ensures Grounded(env, blocks, ch[..k])
  {
    hide HashOf;
  }

  /** One hash lies at one depth. */
  lemma {:induction false} SameHashSameDepth(env: Env, blocks: map<Hash, BlockVal>, c: seq<BlockVal>, d: seq<BlockVal>, i: nat, j: nat)
    requires Ideal(env) && Grounded(env, blocks, c) && Grounded(env, blocks, d)
    requires i < |c| && j < |d| && HashOf(env, c[i]) == HashOf(env, d[j])
    ensures i == j
  {
    SameHash(env, c[i], d[j]);
    if i > 0 && j > 0 {
      assert c[i].meta.prev == HashOf(env, c[i - 1]) && d[j].meta.prev == HashOf(env, d[j - 1]);
      SameHashSameDepth(env, blocks, c, d, i - 1, j - 1);
    }
  }

  /** Three cases: of equally long branches the walk finds the fork point; a shorter current branch ends
      without having met the other; and if the new branch is the shorter one, the program crashes. */
  lemma {:induction false} LockstepIs(env: Env, blocks: map<Hash, BlockVal>, c: seq<BlockVal>, d: seq<BlockVal>)
    requires Ideal(env) && Grounded(env, blocks, c) && Grounded(env, blocks, d)
    ensures |c| == |d| ==> Lockstep(env, c, d) == Some((Meet(env, c, d), Meet(env, c, d)))
    ensures |c| < |d| ==> Lockstep(env, c, d) == Some((0, |d| - |c|))
    ensures |c| > |d| ==> Lockstep(env, c, d) == None
    decreases |c|
  {
    hide HashOf;
    hide Ideal;
    if HashOf(env, Tip(c)) == HashOf(env, Tip(d)) {
      SameHashSameDepth(env, blocks, c, d, |c| - 1, |d| - 1);
    } else if |c| > 1 && |d| > 1 {
      var c', d' := c[..|c| - 1], d[..|d| - 1];
      LockstepIs(env, blocks, c', d');
      if |c| == |d| { MeetOfPrefix(env, c, d, |c| - 1); }
    }
  }

  lemma {:induction false} MeetOfPrefix(env: Env, c: seq<BlockVal>, d: seq<BlockVal>, k: nat)
    requires k <= |c| && k <= |d|
    ensures Meet(env, c[..k], d[..k]) == MeetBelow(env, c, d, k)
  {
    hide HashOf;
    if k > 0 && HashOf(env, c[k - 1]) != HashOf(env, d[k - 1]) {
      MeetBelowOfPrefix(env, c, d, k, k - 1);
      MeetBelowOfPrefix(env, c, d, k, k);
    } else if k > 0 {
      MeetBelowOfPrefix(env, c, d, k, k);
    }
  }

  lemma {:induction false} MeetBelowOfPrefix(env: Env, c: seq<BlockVal>, d: seq<BlockVal>, k: nat, j: nat)
    requires j <= k <= |c| && k <= |d|
    ensures MeetBelow(env, c[..k], d[..k], j) == MeetBelow(env, c, d, j)
  {
    hide HashOf;
    if j > 0 { MeetBelowOfPrefix(env, c, d, k, j - 1); }
  }

  /** Where the walk ends. */
  lemma WalkEnds(env: Env, blocks: map<Hash, BlockVal>, cur: BlockVal, new_: BlockVal)
    requires Ideal(env) && Keyed(env, blocks)
    ensures var c, d := Trail(blocks, cur), Trail(blocks, new_);
            var k := Level(d, cur.meta.height);
            Lockstep(env, c, d[..k]) == if k < |c| then None
                                        else if k == |c| then Some((Meet(env, c, d), Meet(env, c, d)))
                                        else Some((0, k - |c|))
  {
    hide HashOf;
    hide Ideal;
    hide Keyed;
    var c, d := Trail(blocks, cur), Trail(blocks, new_);
    var k := Level(d, cur.meta.height);
    TrailIs(env, blocks, cur);
    TrailIs(env, blocks, new_);
    TrailIsGrounded(env, blocks, c, cur, |c|);
    assert c[..|c|] == c;
    if k > 0 {
      TrailIsGrounded(env, blocks, d, new_, k);
      LockstepIs(env, blocks, c, d[..k]);
    }
    if k == |c| {
      MeetOfPrefix(env, c, d, k);
      assert Meet(env, c, d) == MeetBelow(env, c, d, k);
    }
    hide Trail;
    hide Level;
    hide Meet;
  }

  /** Exactly when a block that makes the miner cut over crashes it: when fewer ancestors of the new tip are
      left, once those above the current height are dropped, than the block being mined has; none at all is
      such a case. Otherwise the walk returns what the abandoned branch has above the fork point and the new
      branch lacks there; if more are left, the branches do not meet and the fork point is at the bottom. */
  lemma SyncCrashesIff(env: Env, blocks: map<Hash, BlockVal>, cur: BlockVal, new_: BlockVal)
    requires Ideal(env) && Keyed(env, blocks)
    ensures var c, d := Trail(blocks, cur), Trail(blocks, new_);
            var k, s := Level(d, cur.meta.height), SyncTransaction(env, blocks, cur, new_);
            && (s.None? <==> k < |c|)
            && (k == |c| ==> s == Some(Abandoned(env, c, d)))
            && (k > |c| ==> s == Some(BranchTxs(c) - BranchTxs(d[k - |c|..])))
  {
    hide BranchTxs;
    hide Keyed;
    hide Ideal;
    hide Trail;
    hide Level;
    hide Lockstep;
    hide Meet;
    WalkEnds(env, blocks, cur, new_);
    var c := Trail(blocks, cur);
    assert c[0..] == c;
  }

  // ---------------------------------------------------------------- the miner

  ghost predicate Listing(order: seq<Transaction>, txs: set<Transaction>) {
    && (forall t :: t in order <==> t in txs)
    && (forall i, j :: 0 <= i < j < |order| ==> order[i] != order[j])
  }

  function TargetFor(n: NodeVal): nat {
    if n.config.target.Some? then n.config.target.value else n.last.meta.target
  }

  function Draft(env: Env, n: NodeVal, now: int): BlockVal {
    NewBlock(env, n.address, n.last, TargetFor(n), n.config.coinbase, now)
  }

  /** A new block on the tip, filled from the pool in the given order; the pool is emptied whether or
      not its transactions were taken. None where the program panics. */
  function StartNewSearch(env: Env, n: NodeVal, order: seq<Transaction>, now: int): Option<NodeVal> {
    var b := Draft(env, n, now);
    match Assemble(env, b.book, order)
    case None => None
    case Some(book) => Some(n.(current := Some(b.(book := book)), pool := {}))
  }

  ghost predicate CutsOver(n: NodeVal, b: BlockVal) {
    n.current.Some? && b.meta.height >= n.current.value.meta.height
  }

  /** The pool from which the miner fills its block after b moved it to another branch. */
  ghost function NextPool(env: Env, n: NodeVal, b: BlockVal): set<Transaction>
    requires n.current.Some?
  {
    match SyncTransaction(env, n.blocks, n.current.value, b)
    case Some(txs) => n.pool + txs
    case None => n.pool
  }

  ghost predicate OrderFits(env: Env, n: NodeVal, b: BlockVal, order: seq<Transaction>) {
    var (m, r) := Receive(env, n, b);
    r.Stored? && CutsOver(m, r.block) && SyncTransaction(env, m.blocks, m.current.value, r.block).Some?
    ==> Listing(order, NextPool(env, m, r.block))
  }

  /** Miner.ReceiveBlock; order is the order in which the pool happens to be enumerated. It crashes where
      the replay panics, where the walk to the fork point dereferences nil, and where the new search does. */
  ghost function MinerReceive(env: Env, n: NodeVal, b: BlockVal, order: seq<Transaction>, now: int): (NodeVal, Receipt) {
    var (m, r) := Receive(env, n, b);
    if r.Stored? && CutsOver(m, r.block) then
      if SyncTransaction(env, m.blocks, m.current.value, r.block).None? then (m, Crashed)
      else
        match StartNewSearch(env, m, order, now)
        case Some(next) => (next, r)
        case None => (m, Crashed)
    else (m, r)
  }

  /** The block that ReceiveBlock files for b, if it files one. */
  ghost function Filed(env: Env, n: NodeVal, b: BlockVal): Option<BlockVal> {
    if HashOf(env, b) in n.blocks then None
    else if b.meta.height == 0 then Some(b)
    else if !HasValidProof(env, b) || b.meta.prev !in n.blocks then None
    else
      match Rerun(env, b.book.txs, n.blocks[b.meta.prev])
      case Accepted(book) => Some(BlockVal(b.meta, book))
      case _ => None
  }

  ghost predicate ReplayPanics(env: Env, n: NodeVal, b: BlockVal) {
    && HashOf(env, b) !in n.blocks && b.meta.height > 0 && HasValidProof(env, b) && b.meta.prev in n.blocks
    && Rerun(env, b.book.txs, n.blocks[b.meta.prev]).Panic?
  }

  /** Too few ancestors of g are left at the height of cur. */
  ghost predicate RunsOff(env: Env, blocks: map<Hash, BlockVal>, cur: BlockVal, g: BlockVal) {
    var more := blocks[HashOf(env, g) := g];
    Level(Trail(more, g), cur.meta.height) < |Trail(more, cur)|
  }

  /** The book of an empty block on the higher of the tip and g. */
  function NextBook(n: NodeVal, g: BlockVal): Book {
    var tip := if n.last.meta.height < g.meta.height then g else n.last;
    Book([], tip.book.balances, tip.book.nonces)
  }

  lemma FiledIs(env: Env, n: NodeVal, b: BlockVal)
    ensures var (m, r) := Receive(env, n, b);
            && (r.Crashed? <==> ReplayPanics(env, n, b))
            && (r.Stored? <==> Filed(env, n, b).Some?)
            && (r.Stored? ==> r.block == Filed(env, n, b).value && m.current == n.current && m.config == n.config
                              && m.blocks == n.blocks[HashOf(env, r.block) := r.block]
                              && m.last == if n.last.meta.height < r.block.meta.height then r.block else n.last)
  {
    hide Rerun;
    hide HasValidProof;
    hide HashOf;
    hide ConfirmedOf;
    hide Contains;
  }

  /** When a received block crashes a miner, told from the state before: its replay panics, or it is filed, the
      miner cuts over to it, and either too few of its ancestors are left or a transaction panics the new search. */
  lemma MinerCrashesIff(env: Env, n: NodeVal, b: BlockVal, order: seq<Transaction>, now: int)
    requires Ideal(env) && Keyed(env, n.blocks)
    ensures MinerReceive(env, n, b, order, now).1.Crashed? <==>
              || ReplayPanics(env, n, b)
              || (&& Filed(env, n, b).Some? && CutsOver(n, Filed(env, n, b).value)
                  && (|| RunsOff(env, n.blocks, n.current.value, Filed(env, n, b).value)
                      || PoolPanics(env, NextBook(n, Filed(env, n, b).value), order)))
  {
    hide Receive;
    hide ReplayPanics;
    hide Filed;
    hide PoolPanics;
    hide SyncTransaction;
    hide Assemble;
    hide Trail;
    hide Level;
    hide Abandoned;
    hide BranchTxs;
    FiledIs(env, n, b);
    var (m, r) := Receive(env, n, b);
    if r.Stored? && n.current.Some? {
      assert Keyed(env, m.blocks);
      SyncCrashesIff(env, m.blocks, n.current.value, r.block);
      AssemblePanicsIff(env, NextBook(n, r.block), order);
    }
    hide HashOf;
    hide Ideal;
  }

  ghost predicate MinerInv(env: Env, w: World, n: NodeVal) {
    && HonestNode(env, w, n)
    && n.config.coinbase == w.coinbase
    && (forall tx :: tx in n.pool ==> Sound(w.genesis.book.balances, tx))
    && (n.current.Some? ==> WorksOn(env, w, n.last, n.current.value))
  }

  lemma LastIsGood(env: Env, w: World, n: NodeVal)
    requires HonestNode(env, w, n)
    ensures Good(env, w, n.last) && HashOf(env, n.last) in n.blocks && n.blocks[HashOf(env, n.last)] == n.last
  {
    hide Good;
    hide HashOf;
    hide Link;
    hide ParkedInv;
    assert Good(env, w, n.blocks[HashOf(env, n.last)]);
  }

  /** Any new search leaves the miner working on its tip, and nothing in the pool can panic it. */
  lemma NewSearchWorksOnTip(env: Env, w: World, n: NodeVal, order: seq<Transaction>, now: int)
    requires Lawful(env, w) && HonestNode(env, w, n) && n.config.coinbase == w.coinbase
    requires forall tx :: tx in order ==> Sound(w.genesis.book.balances, tx)
    ensures StartNewSearch(env, n, order, now).Some?
    ensures MinerInv(env, w, StartNewSearch(env, n, order, now).value)
  {
    hide Good;
    hide TreeInv;
    hide ParkedInv;
    hide TipInv;
    hide Genuine;
    hide Announceable;
    hide HashOf;
    hide Sound;
    hide Apply;
    LastIsGood(env, w, n);
    SupplyBound(env, w, n.last);
    GoodLists(env, w, n.last);
    EmptyIsAnnounceable(env, n.last);
    AssembleIsAnnounceable(env, n.last, Draft(env, n, now).book, w.genesis.book.balances, order);
    hide Assemble;
  }

  /** What a new search takes of one sender's transactions, if only nonces stand in the way; the pool is
      empty afterwards, so the rest is lost. */
  lemma NewSearchKeeps(env: Env, n: NodeVal, order: seq<Transaction>, now: int, a: Address)
    requires Ideal(env) && OnlyNonces(env, Draft(env, n, now).book, order, a) && StartNewSearch(env, n, order, now).Some?
    ensures var m := StartNewSearch(env, n, order, now).value;
            && m.current.Some? && m.pool == {}
            && TakenOf(m.current.value.book.txs, a) == Kept(order, a, Get(n.last.book.nonces, a))
  {
    hide OnlyNonces;
    hide HashOf;
    hide Get;
    AssembleKeeps(env, Draft(env, n, now).book, order, a);
    hide Assemble;
    assert TakenOf([], a) == [];
  }

  lemma CurrentAncestry(env: Env, w: World, n: NodeVal)
    requires Lawful(env, w) && MinerInv(env, w, n) && n.current.Some?
    ensures Ancestry(n.blocks, n.current.value) == Ancestry(n.blocks, n.last) + [n.current.value]
    ensures Rooted(n.blocks, n.current.value)
  {
    hide Good;
    hide Ancestry;
    hide NodeInv;
    hide Announceable;
    LastIsGood(env, w, n);
    HeightsArePositions(env, w, n, n.last);
    AncestryOfChild(n.blocks, n.current.value);
  }

  lemma GoodIsSound(env: Env, w: World, b: BlockVal)
    requires Lawful(env, w) && Good(env, w, b)
    ensures AllSound(w.genesis.book.balances, b.book.txs)
  {
    hide Ideal;
    if b.meta.height > 0 { var _ := GoodParent(env, w, b); }
  }

  lemma AncestorIsStored(env: Env, w: World, n: NodeVal, b: BlockVal, i: nat)
    requires Lawful(env, w) && HonestNode(env, w, n) && HashOf(env, b) in n.blocks && n.blocks[HashOf(env, b)] == b
    requires i < |Ancestry(n.blocks, b)|
    ensures var a := Ancestry(n.blocks, b)[i];
            HashOf(env, a) in n.blocks && n.blocks[HashOf(env, a)] == a && Good(env, w, a)
  {
    hide Good;
    hide Ancestry;
    PathIsChain(env, n.blocks, b);
  }

  /** Everything a miner puts back into its pool is sound. */
  lemma AbandonedIsSound(env: Env, w: World, n: NodeVal, m: NodeVal, d: seq<BlockVal>, tx: Transaction)
    requires Lawful(env, w) && MinerInv(env, w, n) && n.current.Some?
    requires HonestNode(env, w, m) && Extends(n.blocks, m.blocks)
    requires tx in Abandoned(env, Ancestry(m.blocks, n.current.value), d)
    ensures Sound(w.genesis.book.balances, tx)
  {
    hide Good;
    hide Ancestry;
    hide NodeInv;
    hide Announceable;
    hide Sound;
    hide Meet;
    hide HashOf;
    CurrentAncestry(env, w, n);
    AncestryGrows(n.blocks, m.blocks, n.current.value);
    LastIsGood(env, w, n);
    var c := Ancestry(m.blocks, n.current.value);
    var k := Meet(env, c, d);
    BranchTxsAre(c[k..], tx);
    var i :| 0 <= i < |c[k..]| && tx in TxSet(c[k..][i].book.txs);
    var b := c[k + i];
    if k + i < |c| - 1 {
      assert b == Ancestry(n.blocks, n.last)[k + i];
      AncestorIsStored(env, w, n, n.last, k + i);
      GoodIsSound(env, w, b);
    }
  }

  /** What an honest block does to the tip: it moves exactly when the block is higher, and then by
      exactly one. */
  lemma TipMovesByOne(env: Env, w: World, n: NodeVal, b: BlockVal)
    requires Lawful(env, w) && HonestNode(env, w, n) && Genuine(env, w, b)
    ensures var (m, r) := Receive(env, n, b);
            && (m.last != n.last <==> r.Stored? && r.block.meta.height > n.last.meta.height)
            && (m.last != n.last ==> r.Stored? && m.last == r.block && m.last.meta.height == n.last.meta.height + 1)
            && m.current == n.current && m.pool == n.pool && m.config == n.config && m.address == n.address
  {
    hide Receive;
    hide Genuine;
    hide Good;
    hide Link;
    hide HashOf;
    hide ParkedInv;
    hide ConfirmedOf;
    HonestReceipt(env, w, n, b);
  }

  /** On an honest store the trail of a block is its ancestry, down to the genesis block. */
  lemma TrailIsAncestry(env: Env, w: World, n: NodeVal, b: BlockVal)
    requires Lawful(env, w) && HonestNode(env, w, n) && Rooted(n.blocks, b)
    requires Ancestry(n.blocks, b)[0] == w.genesis
    ensures Keyed(env, n.blocks) && Trail(n.blocks, b) == Ancestry(n.blocks, b)
  {
    hide Good;
    hide Link;
    hide HashOf;
    hide ParkedInv;
    hide TipInv;
    hide Lawful;
    IdealOf(env, w);
    GenesisHasNoParent(env, w, n);
    assert Keyed(env, n.blocks);
    var ch := Ancestry(n.blocks, b);
    assert TrailTo(n.blocks, ch, b);
    TrailUnique(n.blocks, ch, Trail(n.blocks, b), b);
  }

  lemma {:induction false} LevelOfPositions(d: seq<BlockVal>, h: u32)
    requires |d| > h as nat && forall i :: 0 <= i < |d| ==> d[i].meta.height == i
    ensures Level(d, h) == h as nat + 1
    decreases |d|
  {
    if |d| - 1 > h { LevelOfPositions(d[..|d| - 1], h); }
  }

  /** On honest stores the trails are the ancestries, and the new branch, brought to the height of the current
      block, is as long as the current one. */
  lemma HonestTrails(env: Env, w: World, n: NodeVal, m: NodeVal, b: BlockVal)
    requires Lawful(env, w) && MinerInv(env, w, n) && n.current.Some?
    requires HonestNode(env, w, m) && Extends(n.blocks, m.blocks)
    requires HashOf(env, b) in m.blocks && m.blocks[HashOf(env, b)] == b && b.meta.height >= n.current.value.meta.height
    ensures Ideal(env) && Keyed(env, m.blocks)
    ensures var c, d := Ancestry(m.blocks, n.current.value), Ancestry(m.blocks, b);
            && Trail(m.blocks, n.current.value) == c && Trail(m.blocks, b) == d
            && Level(d, n.current.value.meta.height) == |c|
  {
    var cur := n.current.value;
    CurrentAncestry(env, w, n);
    LastIsGood(env, w, n);
    HeightsArePositions(env, w, n, n.last);
    HeightsArePositions(env, w, m, b);
    assert cur.meta.height == n.last.meta.height + 1;
    hide MinerInv;
    hide Ancestry;
    AncestryGrows(n.blocks, m.blocks, cur);
    TrailIsAncestry(env, w, m, cur);
    TrailIsAncestry(env, w, m, b);
    IdealOf(env, w);
    hide HonestNode;
    hide Lawful;
    hide Extends;
    hide HashOf;
    LevelOfPositions(Ancestry(m.blocks, b), cur.meta.height);
  }

  /** On honest stores the walk never crashes, stops at the fork point, and returns what the abandoned
      branch has above it and the new one lacks. */
  lemma HonestSyncs(env: Env, w: World, n: NodeVal, m: NodeVal, b: BlockVal)
    requires Lawful(env, w) && MinerInv(env, w, n) && n.current.Some?
    requires HonestNode(env, w, m) && Extends(n.blocks, m.blocks)
    requires HashOf(env, b) in m.blocks && m.blocks[HashOf(env, b)] == b && b.meta.height >= n.current.value.meta.height
    ensures SyncTransaction(env, m.blocks, n.current.value, b)
            == Some(Abandoned(env, Ancestry(m.blocks, n.current.value), Ancestry(m.blocks, b)))
  {
    hide Lawful;
    hide MinerInv;
    hide HonestNode;
    hide Extends;
    hide Keyed;
    hide Ideal;
    hide SyncTransaction;
    hide Abandoned;
    HonestTrails(env, w, n, m, b);
    SyncCrashesIff(env, m.blocks, n.current.value, b);
  }

  /** Miners of an honest run always work on their tip. A received block makes a miner cut over exactly
      when it moves the tip; then it is as high as the block being mined, so that SyncTransaction's
      first loop has nothing to do; and no honest block panics a miner. */
  lemma MinesOnTip(env: Env, w: World, n: NodeVal, b: BlockVal, order: seq<Transaction>, now: int)
    requires Lawful(env, w) && MinerInv(env, w, n) && Genuine(env, w, b) && OrderFits(env, n, b, order)
    ensures MinerInv(env, w, MinerReceive(env, n, b, order, now).0)
    ensures !MinerReceive(env, n, b, order, now).1.Crashed?
    ensures var (m, r) := Receive(env, n, b);
            n.current.Some? && r.Stored? ==>
              && (CutsOver(m, r.block) <==> m.last != n.last)
              && (CutsOver(m, r.block) ==> r.block.meta.height == n.current.value.meta.height)
  {
    hide Receive;
    hide Genuine;
    hide Good;
    hide NodeInv;
    hide Announceable;
    hide HashOf;
    hide Sound;
    var (m, r) := Receive(env, n, b);
    TipMovesByOne(env, w, n, b);
    HonestReceive(env, w, n, b);
    ReceiveKeepsInv(env, n, b) by { IdealOf(env, w); NodeInvOf(env, w, n); }
    if r.Stored? && CutsOver(m, r.block) {
      assert m.last == r.block;
      LastIsGood(env, w, m);
      HonestSyncs(env, w, n, m, r.block);
      hide SyncTransaction;
      forall tx | tx in order ensures Sound(w.genesis.book.balances, tx) {
        if tx !in m.pool {
          AbandonedIsSound(env, w, n, m, Ancestry(m.blocks, r.block), tx);
        }
      }
      NewSearchWorksOnTip(env, w, m, order, now);
    }
  }

  /** A height is not checked against the parent's. A proved child of the genesis block that claims to be
      higher than the block being mined becomes the tip and crashes the miner: below it the walk finds the
      genesis block alone. */
  lemma HeightJumpCrashes(env: Env, w: World, n: NodeVal, b: BlockVal, order: seq<Transaction>, now: int)
    requires Lawful(env, w) && MinerInv(env, w, n) && n.current.Some?
    requires HasValidProof(env, b) && b.book.txs == [] && b.meta.prev == HashOf(env, w.genesis)
    requires b.meta.height > n.current.value.meta.height && HashOf(env, b) !in n.blocks
    ensures Receive(env, n, b).1.Stored? && Receive(env, n, b).0.last == Receive(env, n, b).1.block
    ensures MinerReceive(env, n, b, order, now).1.Crashed?
  {
    JumpIsStored(env, w, n, b);
    var (m, r) := Receive(env, n, b);
    hide Receive;
    JumpTrails(env, w, n, m, r.block);
    hide MinerInv;
    hide HonestNode;
    SyncCrashesIff(env, m.blocks, m.current.value, r.block);
    hide Ideal;
    hide HashOf;
    hide Keyed;
    hide SyncTransaction;
    hide StartNewSearch;
  }

  lemma JumpIsStored(env: Env, w: World, n: NodeVal, b: BlockVal)
    requires Lawful(env, w) && HonestNode(env, w, n) && HasValidProof(env, b)
    requires b.book.txs == [] && b.meta.prev == HashOf(env, w.genesis) && HashOf(env, b) !in n.blocks
    requires b.meta.height > n.last.meta.height
    ensures var (m, r) := Receive(env, n, b);
            && r.Stored? && m.last == r.block && r.block.meta == b.meta && r.block.book.txs == []
            && m.blocks == n.blocks[HashOf(env, b) := r.block] && m.current == n.current
  {
    hide HasValidProof;
    hide NodeInv;
    hide Good;
    GenesisIsStored(env, w, n);
    var g := w.genesis;
    assert Rerun(env, [], g) == Accepted(Book([], g.book.balances, g.book.nonces));
    var kept := BlockVal(b.meta, Book([], g.book.balances, g.book.nonces));
    assert HashOf(env, kept) == HashOf(env, b);
    hide Rerun;
    hide HashOf;
    hide ConfirmedOf;
    hide Contains;
  }

  lemma JumpTrails(env: Env, w: World, n: NodeVal, m: NodeVal, b: BlockVal)
    requires Lawful(env, w) && MinerInv(env, w, n) && n.current.Some?
    requires b.meta.prev == HashOf(env, w.genesis) && b.meta.height > n.current.value.meta.height
    requires m.blocks == n.blocks[HashOf(env, b) := b] && m.current == n.current
    ensures Keyed(env, m.blocks)
    ensures Level(Trail(m.blocks, b), n.current.value.meta.height) == 1
    ensures |Trail(m.blocks, n.current.value)| >= 2
  {
    hide Good;
    hide TreeInv;
    hide ParkedInv;
    hide TipInv;
    hide HashOf;
    hide Ideal;
    hide Announceable;
    hide Sound;
    hide Genuine;
    var cur := n.current.value;
    IdealOf(env, w);
    JumpIsRooted(env, w, n, b);
    LastIsGood(env, w, n);
    hide HonestNode;
    TrailUnique(m.blocks, [w.genesis, b], Trail(m.blocks, b), b);
    assert [w.genesis, b][..1] == [w.genesis];
    TrailIs(env, m.blocks, cur);
    assert cur.meta.prev in m.blocks;
  }

  lemma JumpIsRooted(env: Env, w: World, n: NodeVal, b: BlockVal)
    requires Lawful(env, w) && HonestNode(env, w, n) && b.meta.prev == HashOf(env, w.genesis)
    ensures var blocks := n.blocks[HashOf(env, b) := b]; Keyed(env, blocks) && TrailTo(blocks, [w.genesis, b], b)
  {
    hide Good;
    hide Genuine;
    hide Rooted;
    hide Link;
    hide ParkedInv;
    hide TipInv;
    GenesisIsStored(env, w, n);
    GenesisHasNoParent(env, w, n);
    IsYounger(env, b);
    IsYounger(env, w.genesis);
  }

  lemma IdealOf(env: Env, w: World)
    requires Lawful(env, w)
    ensures Ideal(env)
  {
  }

  lemma NodeInvOf(env: Env, w: World, n: NodeVal)
    requires HonestNode(env, w, n)
    ensures NodeInv(env, n)
  {
  }

  // ---------------------------------------------------------------- what is carried over

  /** The chain every node computes for the block being mined. */
  lemma CurrentChain(env: Env, w: World, n: NodeVal) returns (ch: seq<BlockVal>)
    requires Lawful(env, w) && MinerInv(env, w, n) && n.current.Some?
    ensures Chain(env, ch) && |ch| == |Ancestry(n.blocks, n.current.value)|
    ensures forall i :: 0 <= i < |ch| ==> ch[i].book.txs == Ancestry(n.blocks, n.current.value)[i].book.txs
    ensures ch[0] == w.genesis
  {
    hide Good;
    hide Ancestry;
    hide NodeInv;
    hide Rerun;
    hide HashOf;
    CurrentAncestry(env, w, n);
    LastIsGood(env, w, n);
    HeightsArePositions(env, w, n, n.last);
    PathIsChain(env, n.blocks, n.last) by { NodeInvOf(env, w, n); NodeInvHasTree(env, n); }
    WorkLinks(env, w, n.last, n.current.value);
    var c := n.current.value;
    ch := Ancestry(n.blocks, n.last) + [BlockVal(c.meta, Rerun(env, c.book.txs, n.last).book)];
    forall i | 0 < i < |ch| ensures Link(env, ch[i - 1], ch[i]) {
      if i < |ch| - 1 {
        assert Link(env, Ancestry(n.blocks, n.last)[i - 1], Ancestry(n.blocks, n.last)[i]);
      }
    }
  }

  lemma NodeInvHasTree(env: Env, n: NodeVal)
    requires NodeInv(env, n)
    ensures TreeInv(env, n.blocks)
  {
  }

  lemma {:induction false} InHistory(ch: seq<BlockVal>, i: nat, tx: Transaction) returns (p: nat)
    requires 0 < i < |ch| && tx in TxSet(ch[i].book.txs)
    ensures |History(ch[..i])| <= p < |History(ch[..i + 1])| <= |History(ch)| && History(ch)[p].tx == tx
    ensures History(ch[..i]) <= History(ch)
    ensures History(ch[..i + 1]) <= History(ch)
    decreases |ch|
  {
    var front := ch[..|ch| - 1];
    if i == |ch| - 1 {
      var j :| 0 <= j < |ch[i].book.txs| && ch[i].book.txs[j].tx == tx;
      p := |History(front)| + j;
      assert ch[..i + 1] == ch;
    } else {
      p := InHistory(front, i, tx);
      assert front[..i] == ch[..i] && front[..i + 1] == ch[..i + 1];
    }
  }

  lemma {:induction false} HistoryGrows(ch: seq<BlockVal>, i: nat, j: nat)
    requires i <= j <= |ch|
    ensures |History(ch[..i])| <= |History(ch[..j])|
  {
    if i < j {
      HistoryGrows(ch, i, j - 1);
      if j > 1 { assert ch[..j][..j - 1] == ch[..j - 1]; }
    }
  }

  /** Different blocks of one chain hold different transactions. */
  lemma BlocksShareNothing(env: Env, ch: seq<BlockVal>, i: nat, j: nat, tx: Transaction)
    requires Chain(env, ch) && 0 < i < j < |ch|
    requires |NoncesOf(History(ch), tx.info.from)| <= 0x1_0000_0000
    requires tx in TxSet(ch[i].book.txs)
    ensures tx !in TxSet(ch[j].book.txs)
  {
    hide Chain;
    hide TxSet;
    hide NoncesOf;
    hide History;
    if tx in TxSet(ch[j].book.txs) {
      var p := InHistory(ch, i, tx);
      var q := InHistory(ch, j, tx);
      HistoryGrows(ch, i + 1, j);
      NoTransactionTwice(env, ch, p, q);
    }
  }

  lemma {:induction false} HistoryIsTxs(c: seq<BlockVal>, d: seq<BlockVal>)
    requires |c| == |d| && forall i :: 0 <= i < |c| ==> c[i].book.txs == d[i].book.txs
    ensures History(c) == History(d)
    decreases |c|
  {
    if |c| > 1 {
      HistoryIsTxs(c[..|c| - 1], d[..|d| - 1]);
    }
  }

  lemma PathIsHashLinked(env: Env, blocks: map<Hash, BlockVal>, b: BlockVal)
    requires TreeInv(env, blocks) && Rooted(blocks, b)
    ensures HashLinked(env, Ancestry(blocks, b))
  {
    hide Link;
    var ch := Ancestry(blocks, b);
    forall i | 0 < i < |ch| ensures ch[i].meta.prev == HashOf(env, ch[i - 1]) {
      assert ch[i].meta.prev in blocks;
    }
  }

  lemma CurrentRepeatsNothing(env: Env, w: World, n: NodeVal, i: nat, j: nat, tx: Transaction)
    requires Lawful(env, w) && MinerInv(env, w, n) && n.current.Some?
    requires i < j < |Ancestry(n.blocks, n.current.value)|
    requires |NoncesOf(History(Ancestry(n.blocks, n.current.value)), tx.info.from)| <= 0x1_0000_0000
    requires tx in TxSet(Ancestry(n.blocks, n.current.value)[i].book.txs)
    ensures tx !in TxSet(Ancestry(n.blocks, n.current.value)[j].book.txs)
  {
    hide MinerInv;
    hide Chain;
    hide Ancestry;
    var ch := CurrentChain(env, w, n);
    HistoryIsTxs(ch, Ancestry(n.blocks, n.current.value));
    hide History;
    GenesisIsEmpty(env, w);
    if i > 0 { BlocksShareNothing(env, ch, i, j, tx); }
  }

  lemma GenesisIsEmpty(env: Env, w: World)
    requires Lawful(env, w)
    ensures w.genesis.book.txs == []
  {
  }

  /** The miner is on branch c, the new tip on branch d, both over the store of m. */
  ghost predicate Branches(env: Env, w: World, n: NodeVal, m: NodeVal, b: BlockVal, c: seq<BlockVal>, d: seq<BlockVal>) {
    && MinerInv(env, w, n) && n.current.Some?
    && HonestNode(env, w, m) && Extends(n.blocks, m.blocks)
    && HashOf(env, b) in m.blocks && m.blocks[HashOf(env, b)] == b
    && c == Ancestry(m.blocks, n.current.value) && d == Ancestry(m.blocks, b)
  }

  lemma BranchesLink(env: Env, w: World, n: NodeVal, m: NodeVal, b: BlockVal, c: seq<BlockVal>, d: seq<BlockVal>)
    requires Lawful(env, w) && Branches(env, w, n, m, b, c, d)
    ensures HashLinked(env, c) && HashLinked(env, d) && c == Ancestry(n.blocks, n.current.value)
  {
    hide Link;
    hide Good;
    hide Ancestry;
    hide ParkedInv;
    hide TipInv;
    CurrentAncestry(env, w, n);
    AncestryGrows(n.blocks, m.blocks, n.current.value);
    PathIsHashLinked(env, m.blocks, n.current.value);
    RootedIfStored(env, m.blocks, b);
    PathIsHashLinked(env, m.blocks, b);
  }

  lemma SharedTransactions(env: Env, c: seq<BlockVal>, d: seq<BlockVal>, i: nat)
    requires Ideal(env) && HashLinked(env, c) && HashLinked(env, d) && i < Meet(env, c, d)
    ensures c[i].book.txs == d[i].book.txs
  {
    MeetIsForkPoint(env, c, d, i);
    SameHash(env, c[i], d[i]);
  }

  /** On a cut-over exactly those transactions of the abandoned branch are put back into the pool that the
      new branch lacks altogether, above or below the fork point. */
  lemma RequeuesWhatTheNewBranchLacks(env: Env, w: World, n: NodeVal, m: NodeVal, b: BlockVal,
                                      c: seq<BlockVal>, d: seq<BlockVal>, tx: Transaction)
    requires Lawful(env, w) && Branches(env, w, n, m, b, c, d)
    requires |NoncesOf(History(c), tx.info.from)| <= 0x1_0000_0000
    ensures tx in Abandoned(env, c, d) <==> OnBranch(c[Meet(env, c, d)..], tx) && !OnBranch(d, tx)
  {
    hide MinerInv;
    hide HonestNode;
    hide Ancestry;
    hide Extends;
    hide HashLinked;
    hide Meet;
    hide TxSet;
    hide History;
    hide NoncesOf;
    hide HashOf;
    BranchesLink(env, w, n, m, b, c, d);
    IdealOf(env, w);
    hide Lawful;
    var k := Meet(env, c, d);
    BranchTxsAre(c[k..], tx);
    BranchTxsAre(d[k..], tx);
    if OnBranch(d[k..], tx) {
      var i :| 0 <= i < |d[k..]| && tx in TxSet(d[k..][i].book.txs);
      assert tx in TxSet(d[k + i].book.txs);
    }
    if OnBranch(c[k..], tx) && OnBranch(d, tx) {
      var j :| 0 <= j < |c[k..]| && tx in TxSet(c[k..][j].book.txs);
      var i :| 0 <= i < |d| && tx in TxSet(d[i].book.txs);
      if i < k {
        SharedTransactions(env, c, d, i);
        assert c[k..][j] == c[k + j];
        CurrentRepeatsNothing(env, w, n, i, k + j, tx);
      } else {
        assert d[k..][i - k] == d[i];
      }
    }
  }
}
