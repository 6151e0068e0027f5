/** A fork switch that replaces confirmed history, on an honest node: two branches of empty blocks leave the
    genesis block, the node follows the first up to height 7, and the second reaches it at height 8. */
module DeepForks {
  import opened Prelude
  import opened Ledger
  import opened Chains
  import opened Store
  import opened Honest
  import opened Mining
  import opened Forks
  import opened Stability
  import opened Witness

  // ---------------------------------------------------------------- feeding a node with branches

  /** br is a chain of honest blocks, its bottom the genesis block. */
  ghost predicate Branch(env: Env, w: World, br: seq<BlockVal>) {
    && |br| > 0 && br[0] == w.genesis
    && (forall i :: 0 <= i < |br| ==> Good(env, w, br[i]) && br[i].meta.height == i)
    && (forall i :: 0 < i < |br| ==> br[i].meta.prev == HashOf(env, br[i - 1]))
  }

  /** The node after it received the blocks in order. */
  ghost function Fed(env: Env, n: NodeVal, bs: seq<BlockVal>): NodeVal {
    if bs == [] then n else Receive(env, Fed(env, n, bs[..|bs| - 1]), bs[|bs| - 1]).0
  }

  lemma {:induction false} FedInTwo(env: Env, n: NodeVal, s: seq<BlockVal>, t: seq<BlockVal>)
    ensures Fed(env, n, s + t) == Fed(env, Fed(env, n, s), t)
  {
    hide Receive;
    if t == [] {
      assert s + t == s;
    } else {
      FedInTwo(env, n, s, t[..|t| - 1]);
      assert (s + t)[..|s + t| - 1] == s + t[..|t| - 1];
    }
  }

  lemma FedOneMore(env: Env, n: NodeVal, br: seq<BlockVal>, k: nat)
    requires 0 < k < |br|
    ensures Fed(env, n, br[1..k + 1]) == Receive(env, Fed(env, n, br[1..k]), br[k]).0
  {
    hide Receive;
    assert br[1..k + 1][..k - 1] == br[1..k];
  }

  /** A block higher than the tip is not stored yet. */
  lemma HigherIsNew(env: Env, w: World, n: NodeVal, b: BlockVal)
    requires Lawful(env, w) && HonestNode(env, w, n) && b.meta.height > n.last.meta.height
    ensures HashOf(env, b) !in n.blocks
  {
    hide Good;
    hide Link;
    hide Rooted;
    hide ParkedInv;
    hide ConfirmedOf;
    if HashOf(env, b) in n.blocks {
      KeyIsHash(env, n, HashOf(env, b));
      SameHash(env, n.blocks[HashOf(env, b)], b);
    }
  }

  lemma TakesChild(env: Env, w: World, n: NodeVal, b: BlockVal)
    requires Lawful(env, w) && HonestNode(env, w, n) && Good(env, w, b)
    requires b.meta.prev == HashOf(env, n.last) && b.meta.height == n.last.meta.height + 1
    ensures var m := Receive(env, n, b).0; HonestNode(env, w, m) && m.last == b
  {
    hide HonestNode;
    hide Good;
    hide Genuine;
    hide Receive;
    hide HashOf;
    GoodIsGenuine(env, w, b);
    LastIsGood(env, w, n);
    HigherIsNew(env, w, n, b);
    MovesTip(env, w, n, b);
    HonestReceive(env, w, n, b);
    IdealOf(env, w);
    GoodUnique(env, w, b, Receive(env, n, b).1.block);
  }

  /** The first branch carries the tip up. */
  lemma {:induction false} FollowsFirst(env: Env, w: World, n: NodeVal, br: seq<BlockVal>, k: nat)
    requires Lawful(env, w) && Branch(env, w, br) && HonestNode(env, w, n) && n.last == w.genesis && k < |br|
    ensures var m := Fed(env, n, br[1..k + 1]); HonestNode(env, w, m) && m.last == br[k]
  {
    hide Lawful;
    hide HonestNode;
    hide Good;
    hide Receive;
    hide HashOf;
    if k == 0 {
      assert br[1..1] == [];
    } else {
      FollowsFirst(env, w, n, br, k - 1);
      FedOneMore(env, n, br, k);
      hide Fed;
      TakesChild(env, w, Fed(env, n, br[1..k]), br[k]);
    }
  }

  /** A block whose parent is stored is stored next, and moves the tip only if it is higher. */
  lemma StoresBeside(env: Env, w: World, n: NodeVal, b: BlockVal)
    requires Lawful(env, w) && HonestNode(env, w, n) && Good(env, w, b)
    requires b.meta.prev in n.blocks && b.meta.height <= n.last.meta.height
    ensures var m := Receive(env, n, b).0;
            HonestNode(env, w, m) && m.last == n.last && HashOf(env, b) in m.blocks && m.blocks[HashOf(env, b)] == b
  {
    hide Receive;
    hide Genuine;
    hide GoodLink;
    hide NodeInv;
    hide HashOf;
    hide SetLastConfirmed;
    GoodIsGenuine(env, w, b);
    HonestReceipt(env, w, n, b);
    HonestReceive(env, w, n, b);
    MovesTip(env, w, n, b);
    var m := Receive(env, n, b).0;
    IdealOf(env, w);
    hide Lawful;
    if HashOf(env, b) !in n.blocks { GoodUnique(env, w, b, Settled(env, w, b)); }
    KeyIsHash(env, m, HashOf(env, b));
    GoodUnique(env, w, b, m.blocks[HashOf(env, b)]);
  }

  lemma GenesisAtKey(env: Env, w: World, n: NodeVal)
    requires Lawful(env, w) && HonestNode(env, w, n)
    ensures HashOf(env, w.genesis) in n.blocks && n.blocks[HashOf(env, w.genesis)] == w.genesis
  {
    GenesisIsStored(env, w, n);
  }

  /** The second branch is stored beside it. */
  lemma {:induction false} StoresSecond(env: Env, w: World, n: NodeVal, br: seq<BlockVal>, k: nat)
    requires Lawful(env, w) && Branch(env, w, br) && HonestNode(env, w, n) && k < |br| && k <= n.last.meta.height
    ensures var m := Fed(env, n, br[1..k + 1]);
            && HonestNode(env, w, m) && m.last == n.last
            && HashOf(env, br[k]) in m.blocks && m.blocks[HashOf(env, br[k])] == br[k]
  {
    hide Lawful;
    hide HonestNode;
    hide Good;
    hide Receive;
    hide HashOf;
    if k == 0 {
      GenesisAtKey(env, w, n);
      assert br[1..1] == [];
    } else {
      StoresSecond(env, w, n, br, k - 1);
      FedOneMore(env, n, br, k);
      hide Fed;
      StoresBeside(env, w, Fed(env, n, br[1..k]), br[k]);
    }
  }

  /** The ancestry of a block of the branch follows the branch. */
  lemma {:induction false} AncestryIsBranch(env: Env, w: World, n: NodeVal, br: seq<BlockVal>, k: nat, j: nat)
    requires Lawful(env, w) && Branch(env, w, br) && HonestNode(env, w, n) && j <= k < |br|
    requires HashOf(env, br[k]) in n.blocks && n.blocks[HashOf(env, br[k])] == br[k]
    ensures |Ancestry(n.blocks, br[k])| == k + 1 && Ancestry(n.blocks, br[k])[j] == br[j]
    decreases k - j
  {
    hide Good;
    hide Ancestry;
    hide NodeInv;
    hide HashOf;
    hide Lawful;
    HeightsArePositions(env, w, n, br[k]);
    var ch := Ancestry(n.blocks, br[k]);
    if j < k {
      AncestryIsBranch(env, w, n, br, k, j + 1);
      PathIsHashLinked(env, n.blocks, br[k]) by { NodeInvOf(env, w, n); NodeInvHasTree(env, n); }
      AncestorIsStored(env, w, n, br[k], j);
      assert ch[j + 1].meta.prev == HashOf(env, ch[j]);
      IdealOf(env, w);
      GoodUnique(env, w, ch[j], br[j]);
    }
  }

  /** Two branches that differ from height 1 on fork at the genesis block. */
  lemma ForksAtGenesis(env: Env, w: World, n: NodeVal, c: seq<BlockVal>, d: seq<BlockVal>, k: nat)
    requires Lawful(env, w) && Branch(env, w, c) && Branch(env, w, d) && HonestNode(env, w, n) && 0 < k < |c|
    requires k < |d| && HashOf(env, c[1]) != HashOf(env, d[1])
    requires HashOf(env, c[k]) in n.blocks && n.blocks[HashOf(env, c[k])] == c[k]
    requires HashOf(env, d[k]) in n.blocks && n.blocks[HashOf(env, d[k])] == d[k]
    ensures Meet(env, Ancestry(n.blocks, c[k]), Ancestry(n.blocks, d[k])) <= 1
  {
    hide Good;
    hide HashOf;
    hide Ancestry;
    hide Meet;
    hide TreeInv;
    AncestryIsBranch(env, w, n, c, k, 1);
    AncestryIsBranch(env, w, n, d, k, 1);
    hide Branch;
    RootedIfStored(env, n.blocks, c[k]);
    RootedIfStored(env, n.blocks, d[k]);
    PathIsHashLinked(env, n.blocks, c[k]);
    PathIsHashLinked(env, n.blocks, d[k]);
    IdealOf(env, w);
    hide HonestNode;
    MeetIsForkPoint(env, Ancestry(n.blocks, c[k]), Ancestry(n.blocks, d[k]), 1);
  }

  /** After the first branch up to height 7 and the second beside it, the next block of the second replaces
      the confirmed block, which is of the first. */
  lemma Replaces(env: Env, w: World, n: NodeVal, c: seq<BlockVal>, d: seq<BlockVal>)
    requires Lawful(env, w) && Branch(env, w, c) && Branch(env, w, d) && HonestNode(env, w, n) && n.last == w.genesis
    requires |c| == |d| == 9 && HashOf(env, c[1]) != HashOf(env, d[1])
    ensures var m := Fed(env, Fed(env, n, c[1..8]), d[1..8]);
            && HonestNode(env, w, m) && m.last.meta.height == 7 && m.confirmed.meta.height == 1
            && Moves(env, m, d[8]) && ForkPoint(env, m, d[8]) <= 1
            && m.confirmed !in Ancestry(Receive(env, m, d[8]).0.blocks, Receive(env, m, d[8]).0.confirmed)
  {
    hide Lawful;
    hide HonestNode;
    hide Good;
    hide Genuine;
    hide Receive;
    hide HashOf;
    hide Ancestry;
    hide Meet;
    FollowsFirst(env, w, n, c, 7);
    var up := Fed(env, n, c[1..8]);
    StoresSecond(env, w, up, d, 7);
    var m := Fed(env, up, d[1..8]);
    hide Fed;
    LastIsGood(env, w, m);
    HigherIsNew(env, w, m, d[8]);
    ForksAtGenesis(env, w, m, c, d, 7);
    GoodIsGenuine(env, w, d[8]);
    assert Moves(env, m, d[8]);
    ConfirmedIsAncestor(env, w, m);
    ConfirmedIsStableIff(env, w, m, d[8]);
  }

  // ---------------------------------------------------------------- two such branches

  function Far(): World {
    World(Start().genesis, 25, 8)
  }

  /** The block at height k of branch tag, mined by "a" at time tag. */
  ghost function Twig(tag: int, k: u32): BlockVal {
    if k == 0 then Far().genesis
    else
      var p := Twig(tag, k - 1);
      BlockVal(Meta(HashOf(EasyEnv(), p), 1, 0, k, tag, "a", 25), Base(p))
  }

  ghost function Twigs(tag: int): seq<BlockVal> {
    seq(9, k requires 0 <= k < 9 => Twig(tag, k))
  }

  lemma {:induction false} MintedIs(n: nat)
    ensures Minted(25, n) == 25 * n
  {
    if n > 0 { MintedIs(n - 1); }
  }

  lemma FarIsLawful()
    ensures Lawful(EasyEnv(), Far())
  {
    StartIsLawful();
    MintedIs(9);
    assert Total([Entry("a", 100)]) == 100;
    hide Ideal;
  }

  lemma TwigLinks(tag: int, k: u32)
    requires 0 < k <= 8 && Twig(tag, k - 1).meta.height == k - 1
    ensures GoodLink(EasyEnv(), Far(), Twig(tag, k - 1), Twig(tag, k))
  {
    hide Rewarded;
    hide HashOf;
  }

  lemma {:induction false} TwigIsGood(tag: int, k: u32)
    requires k <= 8
    ensures Good(EasyEnv(), Far(), Twig(tag, k)) && Twig(tag, k).meta.height == k
    ensures k > 0 ==> Twig(tag, k).meta.timestamp == tag
                      && Twig(tag, k).meta.prev == HashOf(EasyEnv(), Twig(tag, k - 1))
  {
    hide GoodLink;
    hide HashOf;
    hide EasyEnv;
    if k > 0 {
      TwigIsGood(tag, k - 1);
      TwigLinks(tag, k);
    }
  }

  lemma TwigsAreBranch(tag: int)
    ensures Branch(EasyEnv(), Far(), Twigs(tag))
  {
    forall k: u32 | k <= 8
      ensures Good(EasyEnv(), Far(), Twig(tag, k)) && Twig(tag, k).meta.height == k
      ensures k > 0 ==> Twig(tag, k).meta.prev == HashOf(EasyEnv(), Twig(tag, k - 1))
    {
      TwigIsGood(tag, k);
    }
    hide Good;
    hide HashOf;
    hide EasyEnv;
    assert Twigs(tag)[0] == Twig(tag, 0);
  }

  lemma TwigsDiffer()
    ensures HashOf(EasyEnv(), Twigs(1)[1]) != HashOf(EasyEnv(), Twigs(2)[1])
  {
    EasyEnvIsIdeal();
    TwigIsGood(1, 1);
    TwigIsGood(2, 1);
    hide EasyEnv;
    hide Twig;
    if HashOf(EasyEnv(), Twig(1, 1)) == HashOf(EasyEnv(), Twig(2, 1)) {
      SameHash(EasyEnv(), Twig(1, 1), Twig(2, 1));
    }
  }

  lemma BranchIsGenuine(env: Env, w: World, br: seq<BlockVal>)
    requires Branch(env, w, br)
    ensures forall x :: x in br ==> Genuine(env, w, x)
  {
    forall x | x in br ensures Genuine(env, w, x) { GoodIsGenuine(env, w, x); }
  }

  /** b, honest blocks bs before it, and the node that received those: b replaces the confirmed block. */
  ghost predicate Replaced(env: Env, w: World, n: NodeVal, bs: seq<BlockVal>, b: BlockVal) {
    && (forall x :: x in bs + [b] ==> Genuine(env, w, x))
    && n == Fed(env, Fresh(env, "n", "", Config(false, 25, None), w.genesis), bs)
    && HonestNode(env, w, n) && n.last.meta.height == 7 && n.confirmed.meta.height == 1
    && Moves(env, n, b) && ForkPoint(env, n, b) <= 1
    && n.confirmed !in Ancestry(Receive(env, n, b).0.blocks, Receive(env, n, b).0.confirmed)
  }

  lemma BranchesReplace(env: Env, w: World, c: seq<BlockVal>, d: seq<BlockVal>) returns (n: NodeVal, bs: seq<BlockVal>, b: BlockVal)
    requires Lawful(env, w) && Branch(env, w, c) && Branch(env, w, d)
    requires |c| == |d| == 9 && HashOf(env, c[1]) != HashOf(env, d[1])
    ensures Replaced(env, w, n, bs, b)
  {
    hide *;
    var fresh_ := Fresh(env, "n", "", Config(false, 25, None), w.genesis);
    b, bs := d[8], c[1..8] + d[1..8];
    n := Fed(env, Fed(env, fresh_, c[1..8]), d[1..8]);
    NewcomerIsHonest(env, w);
    BranchIsGenuine(env, w, c);
    BranchIsGenuine(env, w, d);
    assert forall x :: x in bs + [b] ==> x in c || x in d;
    FedInTwo(env, fresh_, c[1..8], d[1..8]);
    Replaces(env, w, fresh_, c, d);
    ReplacedIs(env, w, n, bs, b);
  }

  lemma NewcomerIsHonest(env: Env, w: World)
    requires Lawful(env, w)
    ensures var n := Fresh(env, "n", "", Config(false, 25, None), w.genesis); HonestNode(env, w, n) && n.last == w.genesis
  {
    FreshIsHonest(env, w, "n", "", Config(false, 25, None));
    hide HonestNode;
  }

  lemma ReplacedIs(env: Env, w: World, n: NodeVal, bs: seq<BlockVal>, b: BlockVal)
    requires forall x :: x in bs + [b] ==> Genuine(env, w, x)
    requires n == Fed(env, Fresh(env, "n", "", Config(false, 25, None), w.genesis), bs)
    requires HonestNode(env, w, n) && n.last.meta.height == 7 && n.confirmed.meta.height == 1
    requires Moves(env, n, b) && ForkPoint(env, n, b) <= 1
    requires n.confirmed !in Ancestry(Receive(env, n, b).0.blocks, Receive(env, n, b).0.confirmed)
    ensures Replaced(env, w, n, bs, b)
  {
  }

  /** After honest blocks only, a node confirms the block at height 1 of one branch, and gives it up when the
      next honest block, on the other branch, arrives. */
  lemma ConfirmedMayBeReplaced() returns (env: Env, w: World, n: NodeVal, bs: seq<BlockVal>, b: BlockVal)
    ensures Lawful(env, w) && Replaced(env, w, n, bs, b)
  {
    env, w := EasyEnv(), Far();
    FarIsLawful();
    TwigsAreBranch(1);
    TwigsAreBranch(2);
    TwigsDiffer();
    hide Replaced;
    hide Lawful;
    hide Branch;
    hide HashOf;
    n, bs, b := BranchesReplace(env, w, Twigs(1), Twigs(2));
  }
}
