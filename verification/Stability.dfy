/** How the confirmed block moves. */
module Stability {
  import opened Prelude
  import opened Ledger
  import opened Chains
  import opened Store
  import opened Honest
  import opened Mining
  import opened Forks

  /** On an honest node the confirmed block is the tip's ancestor six levels down, or the genesis. */
  lemma ConfirmedIsAncestor(env: Env, w: World, n: NodeVal)
    requires Lawful(env, w) && HonestNode(env, w, n)
    ensures var c := Ancestry(n.blocks, n.last);
            && |c| == n.last.meta.height as nat + 1
            && n.confirmed == c[ConfirmedHeight(n.last.meta.height)]
            && n.confirmed.meta.height == ConfirmedHeight(n.last.meta.height)
            && n.confirmed.meta.height == (if n.last.meta.height > 6 then n.last.meta.height - 6 else 0)
            && HashOf(env, n.confirmed) in n.blocks && n.blocks[HashOf(env, n.confirmed)] == n.confirmed
            && Good(env, w, n.confirmed)
  {
    hide Good;
    hide Ancestry;
    hide Link;
    hide ParkedInv;
    LastIsGood(env, w, n);
    HeightsArePositions(env, w, n, n.last);
    var i := DescendStops(Ancestry(n.blocks, n.last), ConfirmedHeight(n.last.meta.height));
    AncestorIsStored(env, w, n, n.last, i);
    assert n.confirmed == ConfirmedOf(n.blocks, n.last);
  }

  lemma AncestryOfAncestor(env: Env, w: World, n: NodeVal, b: BlockVal, i: nat)
    requires Lawful(env, w) && HonestNode(env, w, n) && HashOf(env, b) in n.blocks && n.blocks[HashOf(env, b)] == b
    requires i < |Ancestry(n.blocks, b)|
    ensures Ancestry(n.blocks, Ancestry(n.blocks, b)[i]) == Ancestry(n.blocks, b)[..i + 1]
  {
    hide Good;
    hide NodeInv;
    HeightsArePositions(env, w, n, b);
    var ch := Ancestry(n.blocks, b);
    PathPrefix(n.blocks, ch, i + 1);
    AncestryIs(n.blocks, ch[..i + 1], ch[i]);
  }

  lemma SharedIffBelowFork(env: Env, w: World, m: NodeVal, a: BlockVal, b: BlockVal, i: nat)
    requires Lawful(env, w) && HonestNode(env, w, m)
    requires HashOf(env, a) in m.blocks && m.blocks[HashOf(env, a)] == a
    requires HashOf(env, b) in m.blocks && m.blocks[HashOf(env, b)] == b
    requires i < |Ancestry(m.blocks, a)| && i < |Ancestry(m.blocks, b)|
    ensures Ancestry(m.blocks, a)[i] == Ancestry(m.blocks, b)[i]
            <==> i < Meet(env, Ancestry(m.blocks, a), Ancestry(m.blocks, b))
  {
    hide Good;
    hide Ancestry;
    hide Link;
    hide ParkedInv;
    hide TipInv;
    hide Meet;
    hide HashLinked;
    var c, d := Ancestry(m.blocks, a), Ancestry(m.blocks, b);
    RootedIfStored(env, m.blocks, a);
    RootedIfStored(env, m.blocks, b);
    PathIsHashLinked(env, m.blocks, a);
    PathIsHashLinked(env, m.blocks, b);
    MeetIsForkPoint(env, c, d, i);
    AncestorIsStored(env, w, m, a, i);
    AncestorIsStored(env, w, m, b, i);
    IdealOf(env, w);
  }

  /** Receiving b moves the tip: b is new, its parent is stored, and it is higher than the tip. */
  ghost predicate Moves(env: Env, n: NodeVal, b: BlockVal) {
    HashOf(env, b) !in n.blocks && b.meta.prev in n.blocks && b.meta.height > n.last.meta.height
  }

  /** How many blocks the branch of the tip shares with the branch that b extends. */
  ghost function ForkPoint(env: Env, n: NodeVal, b: BlockVal): nat
    requires b.meta.prev in n.blocks
  {
    Meet(env, Ancestry(n.blocks, n.last), Ancestry(n.blocks, n.blocks[b.meta.prev]))
  }

  lemma MovesTip(env: Env, w: World, n: NodeVal, b: BlockVal)
    requires Lawful(env, w) && HonestNode(env, w, n) && Genuine(env, w, b)
    ensures var (m, r) := Receive(env, n, b);
            && (m.last != n.last <==> Moves(env, n, b))
            && (Moves(env, n, b) ==> r.Stored? && m.last == r.block && HashOf(env, r.block) == HashOf(env, b)
                                     && r.block.meta == b.meta)
  {
    hide Receive;
    hide Genuine;
    hide Good;
    hide NodeInv;
    hide HashOf;
    hide Park;
    hide GoodLink;
    HonestReceipt(env, w, n, b);
    HonestReceive(env, w, n, b);
    TipMovesByOne(env, w, n, b);
    ParkParks(env, n, b);
    KeepStores(env, n, Settled(env, w, b));
    hide Keep;
    hide Lawful;
    hide HonestNode;
  }

  /** A block on top of the other branch does not move the fork point. */
  lemma ForkPointStays(env: Env, w: World, n: NodeVal, b: BlockVal)
    requires Lawful(env, w) && HonestNode(env, w, n) && Genuine(env, w, b) && Moves(env, n, b)
    ensures var m := Receive(env, n, b).0;
            Meet(env, Ancestry(m.blocks, n.last), Ancestry(m.blocks, m.last)) == ForkPoint(env, n, b)
  {
    hide Receive;
    hide Genuine;
    hide Good;
    hide Ancestry;
    hide NodeInv;
    hide HashOf;
    var m := Receive(env, n, b).0;
    var p := n.blocks[b.meta.prev];
    MovesTip(env, w, n, b);
    TipMovesByOne(env, w, n, b);
    HonestReceive(env, w, n, b);
    ReceiveKeepsInv(env, n, b) by { IdealOf(env, w); NodeInvOf(env, w, n); }
    LastIsGood(env, w, n);
    LastIsGood(env, w, m);
    KeyIsHash(env, n, b.meta.prev);
    assert m.blocks[b.meta.prev] == p;
    HeightsArePositions(env, w, n, n.last);
    HeightsArePositions(env, w, n, p);
    HeightsArePositions(env, w, m, m.last);
    AncestryGrows(n.blocks, m.blocks, n.last);
    AncestryGrows(n.blocks, m.blocks, p);
    AncestryOfChild(m.blocks, m.last);
    var c, d := Ancestry(n.blocks, n.last), Ancestry(n.blocks, p);
    assert |c| == |d|;
    MeetBelowOfLonger(env, c, d, m.last, |c|);
    hide HonestNode;
    hide Lawful;
  }

  lemma {:induction false} MeetBelowOfLonger(env: Env, c: seq<BlockVal>, d: seq<BlockVal>, b: BlockVal, k: nat)
    requires k <= |c| && k <= |d|
    ensures MeetBelow(env, c, d + [b], k) == MeetBelow(env, c, d, k)
  {
    hide HashOf;
    if k > 0 { MeetBelowOfLonger(env, c, d, b, k - 1); }
  }

  /** A confirmed block stays confirmed exactly when the fork point of the tip and the branch that the new
      block extends is not below it. Then the confirmed block is the same while heights are within the
      depth, and its child afterwards. A deeper fork switch replaces confirmed history; nothing in the
      program prevents it. */
  lemma ConfirmedIsStableIff(env: Env, w: World, n: NodeVal, b: BlockVal)
    requires Lawful(env, w) && HonestNode(env, w, n) && Genuine(env, w, b) && Moves(env, n, b)
    ensures var m := Receive(env, n, b).0;
            && (n.confirmed in Ancestry(m.blocks, m.confirmed) <==> n.confirmed.meta.height < ForkPoint(env, n, b))
            && (n.confirmed.meta.height < ForkPoint(env, n, b) ==>
                  if b.meta.height <= CONFIRMED_DEPTH then m.confirmed == n.confirmed
                  else GoodLink(env, w, n.confirmed, m.confirmed))
  {
    hide Receive;
    hide Genuine;
    hide Good;
    hide Ancestry;
    hide NodeInv;
    hide Meet;
    hide HashOf;
    hide GoodLink;
    var m := Receive(env, n, b).0;
    MovesTip(env, w, n, b);
    TipMovesByOne(env, w, n, b);
    HonestReceive(env, w, n, b);
    ForkPointStays(env, w, n, b);
    ReceiveKeepsInv(env, n, b) by { IdealOf(env, w); NodeInvOf(env, w, n); }
    ConfirmedIsAncestor(env, w, n);
    ConfirmedIsAncestor(env, w, m);
    LastIsGood(env, w, n);
    LastIsGood(env, w, m);
    HeightsArePositions(env, w, n, n.last);
    AncestryGrows(n.blocks, m.blocks, n.last);
    var c, d := Ancestry(m.blocks, n.last), Ancestry(m.blocks, m.last);
    var i, j := n.confirmed.meta.height, m.confirmed.meta.height;
    assert m.blocks[HashOf(env, n.last)] == n.last;
    SharedIffBelowFork(env, w, m, n.last, m.last, i);
    AncestryOfAncestor(env, w, m, m.last, j);
    HeightsArePositions(env, w, m, m.last);
    assert n.confirmed in d[..j + 1] <==> n.confirmed == d[i];
    if n.confirmed == d[i] && j == i + 1 {
      ConsecutiveLink(env, w, m, m.last, j);
    }
  }

  lemma ConsecutiveLink(env: Env, w: World, n: NodeVal, b: BlockVal, j: nat)
    requires Lawful(env, w) && HonestNode(env, w, n) && HashOf(env, b) in n.blocks && n.blocks[HashOf(env, b)] == b
    requires 0 < j < |Ancestry(n.blocks, b)|
    ensures GoodLink(env, w, Ancestry(n.blocks, b)[j - 1], Ancestry(n.blocks, b)[j])
  {
    hide Ancestry;
    hide Link;
    hide ParkedInv;
    hide TipInv;
    PathIsChain(env, n.blocks, b);
    var ch := Ancestry(n.blocks, b);
    var p, a := ch[j - 1], ch[j];
    AncestorIsStored(env, w, n, b, j);
    AncestorIsStored(env, w, n, b, j - 1);
    assert Link(env, p, a);
    LinkNames(env, p, a);
    LinkIsHigh(env, p, a);
    var q := GoodParent(env, w, a);
    LinkNames(env, q, a);
    GoodUnique(env, w, p, q);
  }

  lemma LinkIsHigh(env: Env, p: BlockVal, b: BlockVal)
    requires Link(env, p, b)
    ensures b.meta.height > 0
  {
  }
}
