/** The assumptions of the other modules can be met: a hash without collisions exists, and there is an
    honest run in which a block is mined and stored. */
module Witness {
  import opened Prelude
  import opened Ledger
  import opened Chains
  import opened Store
  import opened Honest
  import opened Mining
  import opened Forks
  import opened Network

  // ---------------------------------------------------------------- a hash without collisions

  /** Each function writes its argument in front of what follows, so that the two can be told apart. */
  function PutNat(n: nat, k: string): string {
    if n == 0 then "0" + k else "1" + PutNat(n - 1, k)
  }

  function PutInt(i: int, k: string): string {
    if i < 0 then "1" + PutNat(-i, k) else "0" + PutNat(i, k)
  }

  function PutString(s: string, k: string): string {
    PutNat(|s|, s + k)
  }

  function PutOption(o: Option<string>, k: string): string {
    if o.None? then "0" + k else "1" + PutString(o.value, k)
  }

  function PutOutputs(os: seq<Output>, k: string): string {
    if os == [] then "0" + k
    else "1" + PutString(os[0].address, PutNat(os[0].amount, PutOutputs(os[1..], k)))
  }

  function PutTx(t: Transaction, k: string): string {
    PutString(t.info.from, PutNat(t.info.nonce, PutString(t.info.pubkey, PutNat(t.info.fee,
      PutOutputs(t.info.outputs, PutString(t.info.data, PutOption(t.sig, k)))))))
  }

  function PutEntries(es: seq<TxEntry>, k: string): string {
    if es == [] then "0" + k
    else "1" + PutString(es[0].id, PutTx(es[0].tx, PutEntries(es[1..], k)))
  }

  function PutHeader(h: Header, k: string): string {
    PutString(h.meta.prev, PutNat(h.meta.target, PutNat(h.meta.proof, PutNat(h.meta.height, PutInt(h.meta.timestamp,
      PutString(h.meta.rewardAddr, PutNat(h.meta.coinbase, PutEntries(h.txs, k))))))))
  }

  lemma Uncons(c: string, a: string, d: string, b: string)
    requires |c| == |d| == 1 && c + a == d + b
    ensures c == d && a == b
  {
    assert c == (c + a)[..1] && a == (c + a)[1..];
    assert d == (d + b)[..1] && b == (d + b)[1..];
  }

  lemma {:induction false} NatOnce(m: nat, n: nat, k: string, l: string)
    requires PutNat(m, k) == PutNat(n, l)
    ensures m == n && k == l
  {
    Uncons(if m == 0 then "0" else "1", if m == 0 then k else PutNat(m - 1, k),
           if n == 0 then "0" else "1", if n == 0 then l else PutNat(n - 1, l));
    if m > 0 { NatOnce(m - 1, n - 1, k, l); }
  }

  lemma IntOnce(i: int, j: int, k: string, l: string)
    requires PutInt(i, k) == PutInt(j, l)
    ensures i == j && k == l
  {
    var m: nat, n: nat := if i < 0 then -i else i, if j < 0 then -j else j;
    Uncons(if i < 0 then "1" else "0", PutNat(m, k), if j < 0 then "1" else "0", PutNat(n, l));
    NatOnce(m, n, k, l);
  }

  lemma StringOnce(s: string, t: string, k: string, l: string)
    requires PutString(s, k) == PutString(t, l)
    ensures s == t && k == l
  {
    NatOnce(|s|, |t|, s + k, t + l);
    assert s == (s + k)[..|s|] && t == (t + l)[..|t|];
    assert k == (s + k)[|s|..] && l == (t + l)[|t|..];
  }

  lemma OptionOnce(o: Option<string>, p: Option<string>, k: string, l: string)
    requires PutOption(o, k) == PutOption(p, l)
    ensures o == p && k == l
  {
    Uncons(if o.None? then "0" else "1", if o.None? then k else PutString(o.value, k),
           if p.None? then "0" else "1", if p.None? then l else PutString(p.value, l));
    if o.Some? { StringOnce(o.value, p.value, k, l); }
  }

  lemma {:induction false} OutputsOnce(os: seq<Output>, ps: seq<Output>, k: string, l: string)
    requires PutOutputs(os, k) == PutOutputs(ps, l)
    ensures os == ps && k == l
  {
    hide PutString;
    hide PutNat;
    if os == [] || ps == [] {
      Uncons(if os == [] then "0" else "1", PutOutputs(os, k)[1..], if ps == [] then "0" else "1", PutOutputs(ps, l)[1..]);
    } else {
      var os', ps' := PutOutputs(os[1..], k), PutOutputs(ps[1..], l);
      Uncons("1", PutString(os[0].address, PutNat(os[0].amount, os')), "1", PutString(ps[0].address, PutNat(ps[0].amount, ps')));
      StringOnce(os[0].address, ps[0].address, PutNat(os[0].amount, os'), PutNat(ps[0].amount, ps'));
      NatOnce(os[0].amount, ps[0].amount, os', ps');
      OutputsOnce(os[1..], ps[1..], k, l);
      assert os == [os[0]] + os[1..] && ps == [ps[0]] + ps[1..];
    }
  }

  lemma TxOnce(t: Transaction, u: Transaction, k: string, l: string)
    requires PutTx(t, k) == PutTx(u, l)
    ensures t == u && k == l
  {
    hide PutString;
    hide PutNat;
    hide PutOutputs;
    hide PutOption;
    var i, j := t.info, u.info;
    var k1, l1 := PutOption(t.sig, k), PutOption(u.sig, l);
    var k2, l2 := PutString(i.data, k1), PutString(j.data, l1);
    var k3, l3 := PutOutputs(i.outputs, k2), PutOutputs(j.outputs, l2);
    var k4, l4 := PutNat(i.fee, k3), PutNat(j.fee, l3);
    var k5, l5 := PutString(i.pubkey, k4), PutString(j.pubkey, l4);
    var k6, l6 := PutNat(i.nonce, k5), PutNat(j.nonce, l5);
    StringOnce(i.from, j.from, k6, l6);
    NatOnce(i.nonce, j.nonce, k5, l5);
    StringOnce(i.pubkey, j.pubkey, k4, l4);
    NatOnce(i.fee, j.fee, k3, l3);
    OutputsOnce(i.outputs, j.outputs, k2, l2);
    StringOnce(i.data, j.data, k1, l1);
    OptionOnce(t.sig, u.sig, k, l);
  }

  lemma {:induction false} EntriesOnce(es: seq<TxEntry>, fs: seq<TxEntry>, k: string, l: string)
    requires PutEntries(es, k) == PutEntries(fs, l)
    ensures es == fs && k == l
  {
    hide PutString;
    hide PutTx;
    if es == [] || fs == [] {
      Uncons(if es == [] then "0" else "1", PutEntries(es, k)[1..], if fs == [] then "0" else "1", PutEntries(fs, l)[1..]);
    } else {
      var es', fs' := PutEntries(es[1..], k), PutEntries(fs[1..], l);
      Uncons("1", PutString(es[0].id, PutTx(es[0].tx, es')), "1", PutString(fs[0].id, PutTx(fs[0].tx, fs')));
      StringOnce(es[0].id, fs[0].id, PutTx(es[0].tx, es'), PutTx(fs[0].tx, fs'));
      TxOnce(es[0].tx, fs[0].tx, es', fs');
      EntriesOnce(es[1..], fs[1..], k, l);
      assert es == [es[0]] + es[1..] && fs == [fs[0]] + fs[1..];
    }
  }

  lemma HeaderOnce(g: Header, h: Header, k: string, l: string)
    requires PutHeader(g, k) == PutHeader(h, l)
    ensures g == h && k == l
  {
    hide PutString;
    hide PutNat;
    hide PutInt;
    hide PutEntries;
    var m, n := g.meta, h.meta;
    var k1, l1 := PutEntries(g.txs, k), PutEntries(h.txs, l);
    var k2, l2 := PutNat(m.coinbase, k1), PutNat(n.coinbase, l1);
    var k3, l3 := PutString(m.rewardAddr, k2), PutString(n.rewardAddr, l2);
    var k4, l4 := PutInt(m.timestamp, k3), PutInt(n.timestamp, l3);
    var k5, l5 := PutNat(m.height, k4), PutNat(n.height, l4);
    var k6, l6 := PutNat(m.proof, k5), PutNat(n.proof, l5);
    var k7, l7 := PutNat(m.target, k6), PutNat(n.target, l6);
    StringOnce(m.prev, n.prev, k7, l7);
    NatOnce(m.target, n.target, k6, l6);
    NatOnce(m.proof, n.proof, k5, l5);
    NatOnce(m.height, n.height, k4, l4);
    IntOnce(m.timestamp, n.timestamp, k3, l3);
    StringOnce(m.rewardAddr, n.rewardAddr, k2, l2);
    NatOnce(m.coinbase, n.coinbase, k1, l1);
    EntriesOnce(g.txs, h.txs, k, l);
  }

  ghost function HeaderBehind(s: Hash): Header {
    if exists h: Header :: PutHeader(h, "") == s then var h: Header :| PutHeader(h, "") == s; h
    else Header(Meta("", 0, 0, 0, 0, "", 0), [])
  }

  ghost function TxBehind(s: TxId): Transaction {
    if exists t: Transaction :: PutTx(t, "") == s then var t: Transaction :| PutTx(t, "") == s; t
    else Transaction(TransactionInfo("", 0, "", 0, [], ""), None)
  }

  /** Every hash reads as 0, so that every proof is valid for a positive target. */
  ghost function EasyEnv(): Env {
    Env(h => PutHeader(h, ""), s => HeaderBehind(s), s => 0, t => PutTx(t, ""), s => TxBehind(s), t => true, (k, i) => "",
        s => |s|)
  }

  lemma {:induction false} NatLonger(n: nat, k: string)
    ensures |PutNat(n, k)| > |k|
  {
    if n > 0 { NatLonger(n - 1, k); }
  }

  /** An encoding is longer than the hash of the parent it contains. */
  lemma HeaderLonger(h: Header)
    ensures |PutHeader(h, "")| > |h.meta.prev|
  {
    hide PutNat;
    hide PutInt;
    hide PutEntries;
    var s := h.meta.prev;
    var k := PutHeader(h, "");
    var rest := PutNat(h.meta.target, PutNat(h.meta.proof, PutNat(h.meta.height, PutInt(h.meta.timestamp,
                  PutString(h.meta.rewardAddr, PutNat(h.meta.coinbase, PutEntries(h.txs, "")))))));
    NatLonger(|s|, s + rest);
  }

  lemma EasyEnvIsIdeal()
    ensures Ideal(EasyEnv())
  {
    hide PutHeader;
    hide PutTx;
    var env := EasyEnv();
    forall h ensures env.headerOf(env.blockHash(h)) == h {
      HeaderOnce(HeaderBehind(PutHeader(h, "")), h, "", "");
    }
    forall h: Header ensures env.age(h.meta.prev) < env.age(env.blockHash(h)) {
      HeaderLonger(h);
    }
    forall t ensures env.txOf(env.txHash(t)) == t {
      TxOnce(TxBehind(PutTx(t, "")), t, "", "");
    }
  }

  // ---------------------------------------------------------------- an honest run

  function Start(): World {
    World(BlockVal(Meta("", 1, 0, 0, 0, "", 25), Book([], [Entry("a", 100)], [])), 25, 1)
  }

  ghost function Joiner(a: Address): NodeVal {
    Fresh(EasyEnv(), a, "", Config(true, 25, Some(1)), Start().genesis)
  }

  /** The block the miner a works on. */
  ghost function FirstBlock(): BlockVal {
    Draft(EasyEnv(), Joiner("a"), 0)
  }

  /** Two nodes join, a starts mining, finds a proof, and its block reaches b. */
  ghost function Events(): seq<Event> {
    [Join(Joiner("a")), Join(Joiner("b")), Begin("a", [], 0), Mine("a", 1),
     DeliverBlock(Msg("b", ProofFound(FirstBlock())), [], 0)]
  }

  lemma StartIsLawful()
    ensures Lawful(EasyEnv(), Start())
  {
    EasyEnvIsIdeal();
    hide Ideal;
    assert Minted(25, 2) == Minted(25, 1) + 25;
    assert Total([Entry("a", 100)]) == 100;
  }

  lemma JoinerMines()
    ensures StartNewSearch(EasyEnv(), Joiner("a"), [], 0) == Some(Joiner("a").(current := Some(FirstBlock())))
    ensures FindProof(EasyEnv(), Joiner("a").(current := Some(FirstBlock())), 1)
            == (Joiner("a").(current := Some(FirstBlock())), true)
  {
    hide HashOf;
    var c := FirstBlock();
    assert Assemble(EasyEnv(), c.book, []) == Some(c.book);
    assert HasValidProof(EasyEnv(), WithProof(c, 0));
    assert Scan(EasyEnv(), c, 0, 1) == 0;
  }

  lemma JoinerIs(a: Address)
    ensures var n := Joiner(a);
            && n.address == a && n.key == "" && n.config == Config(true, 25, Some(1)) && n.current == None && n.pool == {}
            && n == Fresh(EasyEnv(), n.address, n.key, n.config, Start().genesis)
            && n.last == Start().genesis && n.blocks.Keys == {HashOf(EasyEnv(), Start().genesis)}
    ensures FirstBlock().meta.height == 1 && FirstBlock().meta.prev == HashOf(EasyEnv(), Start().genesis)
  {
    hide HashOf;
  }

  ghost function Busy(): NodeVal {
    Joiner("a").(current := Some(FirstBlock()))
  }

  ghost function Found(): Net {
    Net(map["a" := Busy(), "b" := Joiner("b")], Announcement({"a", "b"}, "a", FirstBlock()))
  }

  lemma Joins(s: Net, a: Address)
    requires a !in s.nodes
    ensures Enabled(EasyEnv(), Start(), s, Join(Joiner(a)))
    ensures Perform(EasyEnv(), Start(), s, Join(Joiner(a))) == s.(nodes := s.nodes[a := Joiner(a)])
  {
    JoinerIs(a);
    hide Joiner;
    hide Fresh;
    hide EasyEnv;
  }

  lemma Begins(s: Net)
    requires "a" in s.nodes && s.nodes["a"] == Joiner("a")
    ensures Enabled(EasyEnv(), Start(), s, Begin("a", [], 0))
    ensures Perform(EasyEnv(), Start(), s, Begin("a", [], 0)) == s.(nodes := s.nodes["a" := Busy()])
  {
    JoinerIs("a");
    JoinerMines();
    hide Joiner;
    hide Forks.StartNewSearch;
    hide EasyEnv;
  }

  lemma Mines(s: Net)
    requires s == Net(map["a" := Busy(), "b" := Joiner("b")], multiset{})
    ensures Enabled(EasyEnv(), Start(), s, Mine("a", 1))
    ensures Perform(EasyEnv(), Start(), s, Mine("a", 1)) == Found()
  {
    JoinerIs("a");
    JoinerMines();
    hide Joiner;
    hide FirstBlock;
    hide FindProof;
    hide EasyEnv;
    hide Announcement;
    assert s.nodes.Keys == {"a", "b"};
    assert s.nodes["a" := Busy()] == s.nodes;
  }

  lemma Delivers()
    ensures Enabled(EasyEnv(), Start(), Found(), Events()[4])
  {
    JoinerIs("b");
    hide Joiner;
    hide FirstBlock;
    hide EasyEnv;
    ReceiveKeepsCurrent(EasyEnv(), Joiner("b"), FirstBlock());
    hide Receive;
    assert Msg("b", ProofFound(FirstBlock())) in Found().msgs;
  }

  lemma ReceiveKeepsCurrent(env: Env, n: NodeVal, b: BlockVal)
    ensures Receive(env, n, b).0.current == n.current
  {
    hide Rerun;
    hide ConfirmedOf;
    hide HashOf;
    hide HasValidProof;
  }

  /** A node that stores the genesis block only takes an honest block on top of it as its tip. */
  lemma TakesFirst(env: Env, w: World, n: NodeVal, c: BlockVal)
    requires Lawful(env, w) && HonestNode(env, w, n) && Genuine(env, w, c)
    requires n.blocks.Keys == {HashOf(env, w.genesis)} && n.last == w.genesis
    requires c.meta.height == 1 && c.meta.prev == HashOf(env, w.genesis)
    ensures Receive(env, n, c).0.last.meta.height == 1
  {
    hide Receive;
    hide HonestNode;
    hide Genuine;
    hide Keep;
    hide GoodLink;
    IdealOf(env, w);
    if HashOf(env, c) == HashOf(env, w.genesis) { SameHash(env, c, w.genesis); }
    HonestReceipt(env, w, n, c);
    KeepStores(env, n, Settled(env, w, c));
    TipMovesByOne(env, w, n, c);
  }

  /** b stores the block: it is honest, it is new, and its parent is the genesis block. */
  lemma BlockIsStored(ss: seq<Net>)
    requires NetRun(EasyEnv(), Start(), ss, Events()) && ss[4] == Found()
    ensures "b" in ss[5].nodes && ss[5].nodes["b"].last.meta.height == 1
  {
    hide EasyEnv;
    hide Lawful;
    hide Joiner;
    hide FirstBlock;
    hide Genuine;
    hide MinerInv;
    hide MinerReceive;
    hide HashOf;
    hide Announcement;
    hide ToAll;
    var env, w, c, n := EasyEnv(), Start(), FirstBlock(), Joiner("b");
    StartIsLawful();
    JoinerIs("b");
    RunKeepsNet(env, w, ss, Events(), 4);
    Delivers();
    assert ss[5] == Perform(env, w, ss[4], Events()[4]);
    var m := Msg("b", ProofFound(c));
    assert m in ss[4].msgs && "b" in ss[4].nodes && ss[4].nodes["b"] == n;
    assert MsgOk(env, w, ss[4].nodes.Keys, m) && NodeOk(env, w, "b", n);
    MinerIsHonest(env, w, n);
    TakesFirst(env, w, n, c);
    ClientTakes(env, n, c);
  }

  /** Without a block being mined there is nothing to follow up. */
  lemma ClientTakes(env: Env, n: NodeVal, b: BlockVal)
    requires n.current.None?
    ensures MinerReceive(env, n, b, [], 0) == Receive(env, n, b)
  {
    ReceiveKeepsCurrent(env, n, b);
    hide Receive;
  }

  /** The first four events. */
  lemma RunToFound() returns (ss: seq<Net>)
    ensures |ss| == 5 && ss[0] == Net(map[], multiset{}) && ss[4] == Found()
    ensures forall i :: 0 <= i < 4 ==> Enabled(EasyEnv(), Start(), ss[i], Events()[i])
                                       && ss[i + 1] == Perform(EasyEnv(), Start(), ss[i], Events()[i])
  {
    hide EasyEnv;
    hide Joiner;
    hide Busy;
    hide Found;
    hide FirstBlock;
    hide Perform;
    hide Enabled;
    var s0 := Net(map[], multiset{});
    var s1 := Net(map["a" := Joiner("a")], multiset{});
    var s2 := Net(map["a" := Joiner("a"), "b" := Joiner("b")], multiset{});
    var s3 := Net(map["a" := Busy(), "b" := Joiner("b")], multiset{});
    Joins(s0, "a");
    Joins(s1, "b");
    Begins(s2);
    Mines(s3);
    assert s2.nodes["a" := Busy()] == s3.nodes;
    ss := [s0, s1, s2, s3, Found()];
  }

  /** The hypotheses of the network theorems are met by a run in which an honest block is mined by one
      node and becomes the tip of another. */
  lemma HonestRunsExist() returns (env: Env, w: World, ss: seq<Net>, es: seq<Event>)
    ensures Lawful(env, w) && NetRun(env, w, ss, es)
    ensures var last := ss[|ss| - 1].nodes; "b" in last && last["b"].last.meta.height == 1
  {
    hide EasyEnv;
    hide Lawful;
    hide Joiner;
    hide Found;
    hide FirstBlock;
    hide Perform;
    hide Enabled;
    env, w, es := EasyEnv(), Start(), Events();
    StartIsLawful();
    var first := RunToFound();
    Delivers();
    ss := first + [Perform(env, w, Found(), es[4])];
    assert forall i :: 0 <= i < 5 ==> ss[i] == first[i];
    BlockIsStored(ss);
  }

  /** A child of the genesis block that claims height 100. */
  ghost function Jump(): BlockVal {
    BlockVal(Meta(HashOf(EasyEnv(), Start().genesis), 1, 0, 100, 0, "c", 25), Book([], [], []))
  }

  /** That block, proved and accepted, crashes the miner a, which is at work on height 1. */
  lemma JumpCrashesMiner(order: seq<Transaction>, now: int)
    ensures Lawful(EasyEnv(), Start()) && MinerInv(EasyEnv(), Start(), Busy()) && HasValidProof(EasyEnv(), Jump())
    ensures MinerReceive(EasyEnv(), Busy(), Jump(), order, now).1.Crashed?
  {
    hide Receive;
    hide MinerReceive;
    hide MinerInv;
    hide Perform;
    hide Enabled;
    hide NetInv;
    var env, w := EasyEnv(), Start();
    StartIsLawful();
    JoinerIs("a");
    BusyIsHonest();
    IdealOf(env, w);
    hide Lawful;
    if HashOf(env, Jump()) == HashOf(env, w.genesis) { SameHash(env, Jump(), w.genesis); }
    HeightJumpCrashes(env, w, Busy(), Jump(), order, now);
  }

  lemma BusyIsHonest()
    ensures MinerInv(EasyEnv(), Start(), Busy())
  {
    hide EasyEnv;
    hide Joiner;
    hide Busy;
    hide Found;
    hide FirstBlock;
    hide Perform;
    hide Enabled;
    hide Lawful;
    hide MinerInv;
    StartIsLawful();
    var first := RunToFound();
    Delivers();
    var ss := first + [Perform(EasyEnv(), Start(), Found(), Events()[4])];
    assert forall i :: 0 <= i < 5 ==> ss[i] == first[i];
    RunKeepsNet(EasyEnv(), Start(), ss, Events(), 4);
    FoundHasBusy();
    assert NodeOk(EasyEnv(), Start(), "a", ss[4].nodes["a"]);
  }

  lemma FoundHasBusy()
    ensures "a" in Found().nodes && Found().nodes["a"] == Busy()
  {
    hide Busy;
    hide Announcement;
  }

  // ---------------------------------------------------------------- a stored block without a valid proof

  function Poor(): BlockVal {
    BlockVal(Meta("", 1, 0, 0, 0, "", 0), Book([], [Entry("a", 1)], []))
  }

  function Payment(sig: string): Transaction {
    Transaction(TransactionInfo("a", 0, "", 0, [Output("x", 1)], ""), Some(sig))
  }

  /** A child of that block which lists a transaction under the id of another. */
  ghost function Mislabelled(): BlockVal {
    var env := EasyEnv();
    BlockVal(Meta(HashOf(env, Poor()), 1, 0, 1, 0, "", 0), Book([TxEntry(IdOf(env, Payment("b")), Payment("a"))], [], []))
  }

  /** The same hashes, but only that child meets its target. */
  ghost function PickyEnv(): Env {
    var h := HashOf(EasyEnv(), Mislabelled());
    EasyEnv().(magnitude := x => if x == h then 0 else 1)
  }

  /** A fresh node stores it, under its recomputed ids and without a valid proof. */
  lemma ProofMayBeLost()
    ensures var env := PickyEnv();
            var n := Fresh(env, "c", "", Config(false, 0, None), Poor());
            var (m, r) := Receive(env, n, Mislabelled());
            && Ideal(env) && NodeInv(env, n)
            && r.Stored? && r.block.meta.height > 0 && HashOf(env, r.block) in m.blocks
            && m.blocks[HashOf(env, r.block)] == r.block && !HasValidProof(env, r.block)
  {
    hide Rerun;
    hide Keep;
    hide NodeInv;
    hide PutHeader;
    hide PutTx;
    EasyEnvIsIdeal();
    var env, b := PickyEnv(), Mislabelled();
    var n := Fresh(env, "c", "", Config(false, 0, None), Poor());
    FreshInv(env, "c", "", Config(false, 0, None), Poor());
    PaymentReplays(env, b);
    if HashOf(env, b) == HashOf(env, Poor()) { SameHash(env, b, Poor()); }
    KeepStores(env, n, BlockVal(b.meta, Rerun(env, b.book.txs, Poor()).book));
    StoredProof(env, n, b);
    ReceiveFiles(env, n, b);
    hide Receive;
    if IdOf(env, Payment("a")) == IdOf(env, Payment("b")) { SameId(env, Payment("a"), Payment("b")); }
    assert b.book.txs[0].id != Canonical(env, b.book.txs)[0].id;
  }

  lemma PaymentReplays(env: Env, b: BlockVal)
    requires env.verifier == EasyEnv().verifier
    requires b.book.txs == [TxEntry(IdOf(EasyEnv(), Payment("b")), Payment("a"))]
    ensures Rerun(env, b.book.txs, Poor()).Accepted?
  {
    hide Apply;
    hide IdOf;
    PaysOne(env, Base(Poor()), Payment("a"));
    assert b.book.txs[1..] == [];
    assert Replay(env, Apply(env, Base(Poor()), Payment("a")).book, []).Accepted?;
  }
}
