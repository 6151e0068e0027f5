/** A node's block tree: where a received block goes, which block is the tip, which is confirmed. */
module Store {
  import opened Prelude
  import opened Ledger
  import opened Chains

  const CONFIRMED_DEPTH: u32 := 6

  /** target is the fixed proof-of-work target of a new block; None inherits the tip's target. */
  datatype Config = Config(miner: bool, coinbase: u32, target: Option<nat>)

  /** The state of a Client, Miner or TcpMiner. current is None for a client, and for a miner
      before Initialize. Stored and parked blocks are values: nothing writes to them. */
  datatype NodeVal = NodeVal(
    address: Address,
    key: string,
    config: Config,
    blocks: map<Hash, BlockVal>,
    parked: map<Hash, map<Hash, BlockVal>>,
    last: BlockVal,
    confirmed: BlockVal,
    outgoing: set<Transaction>,
    nonce: u32,
    current: Option<BlockVal>,
    pool: set<Transaction>)

  // ---------------------------------------------------------------- paths through the store

  /** ch follows stored parents from a block of height 0 up to its tip, which need not be stored. */
  ghost predicate Path(blocks: map<Hash, BlockVal>, ch: seq<BlockVal>) {
    && |ch| > 0
    && ch[0].meta.height == 0
    && forall i :: 0 < i < |ch| ==>
         && ch[i].meta.height > 0
         && ch[i].meta.prev in blocks
         && blocks[ch[i].meta.prev] == ch[i - 1]
  }

  ghost predicate PathTo(blocks: map<Hash, BlockVal>, ch: seq<BlockVal>, b: BlockVal) {
    Path(blocks, ch) && Tip(ch) == b
  }

  ghost predicate Rooted(blocks: map<Hash, BlockVal>, b: BlockVal) {
    exists ch :: PathTo(blocks, ch, b)
  }

  /** The path that the parent links of b spell out. */
  ghost function Ancestry(blocks: map<Hash, BlockVal>, b: BlockVal): (ch: seq<BlockVal>)
    ensures |ch| > 0 && Tip(ch) == b
    ensures Rooted(blocks, b) ==> PathTo(blocks, ch, b)
  {
    if Rooted(blocks, b) then var ch :| PathTo(blocks, ch, b); ch else [b]
  }

  ghost predicate Extends(blocks: map<Hash, BlockVal>, more: map<Hash, BlockVal>) {
    forall h :: h in blocks ==> h in more && more[h] == blocks[h]
  }

  lemma PathPrefix(blocks: map<Hash, BlockVal>, ch: seq<BlockVal>, n: nat)
    requires Path(blocks, ch) && 0 < n <= |ch|
    ensures Path(blocks, ch[..n])
  {
  }

  lemma PathGrows(blocks: map<Hash, BlockVal>, more: map<Hash, BlockVal>, ch: seq<BlockVal>)
    requires Path(blocks, ch) && Extends(blocks, more)
    ensures Path(more, ch)
  {
    forall i | 0 < i < |ch|
      ensures ch[i].meta.prev in more && more[ch[i].meta.prev] == ch[i - 1]
    {
      assert ch[i].meta.prev in blocks;
    }
  }

  /** A block has one path at most: parent links leave no choice. */
  lemma {:induction false} PathUnique(blocks: map<Hash, BlockVal>, c: seq<BlockVal>, d: seq<BlockVal>)
    requires Path(blocks, c) && Path(blocks, d) && Tip(c) == Tip(d)
    ensures c == d
    decreases |c|
  {
    if |c| > 1 { assert c[|c| - 1].meta.height > 0; }
    if |d| > 1 { assert d[|d| - 1].meta.height > 0; }
    if |c| > 1 {
      PathPrefix(blocks, c, |c| - 1);
      PathPrefix(blocks, d, |d| - 1);
      assert blocks[Tip(c).meta.prev] == c[|c| - 2] && blocks[Tip(d).meta.prev] == d[|d| - 2];
      PathUnique(blocks, c[..|c| - 1], d[..|d| - 1]);
      assert c == c[..|c| - 1] + [Tip(c)] && d == d[..|d| - 1] + [Tip(d)];
    }
  }

  lemma AncestryIs(blocks: map<Hash, BlockVal>, ch: seq<BlockVal>, b: BlockVal)
    requires PathTo(blocks, ch, b)
    ensures Ancestry(blocks, b) == ch
  {
    PathUnique(blocks, Ancestry(blocks, b), ch);
  }

  /** A store only grows, so no block ever changes its ancestry. */
  lemma AncestryGrows(blocks: map<Hash, BlockVal>, more: map<Hash, BlockVal>, b: BlockVal)
    requires Rooted(blocks, b) && Extends(blocks, more)
    ensures Rooted(more, b) && Ancestry(more, b) == Ancestry(blocks, b)
  {
    var ch := Ancestry(blocks, b);
    PathGrows(blocks, more, ch);
    assert PathTo(more, ch, b);
    AncestryIs(more, ch, b);
  }

  lemma AncestryOfChild(blocks: map<Hash, BlockVal>, b: BlockVal)
    requires b.meta.height > 0 && b.meta.prev in blocks && Rooted(blocks, blocks[b.meta.prev])
    ensures Rooted(blocks, b)
    ensures Ancestry(blocks, b) == Ancestry(blocks, blocks[b.meta.prev]) + [b]
  {
    var p := blocks[b.meta.prev];
    var ch := Ancestry(blocks, p) + [b];
    assert Tip(Ancestry(blocks, p)) == p;
    forall i | 0 < i < |ch|
      ensures ch[i].meta.height > 0 && ch[i].meta.prev in blocks && blocks[ch[i].meta.prev] == ch[i - 1]
    {
      if i < |ch| - 1 { assert ch[i] == Ancestry(blocks, p)[i] && ch[i - 1] == Ancestry(blocks, p)[i - 1]; }
    }
    assert PathTo(blocks, ch, b);
    AncestryIs(blocks, ch, b);
  }

  lemma AncestryOfRoot(blocks: map<Hash, BlockVal>, b: BlockVal)
    requires b.meta.height == 0
    ensures Rooted(blocks, b) && Ancestry(blocks, b) == [b]
  {
    assert PathTo(blocks, [b], b);
    AncestryIs(blocks, [b], b);
  }

  // ---------------------------------------------------------------- the confirmed block

  function ConfirmedHeight(height: u32): u32 {
    if height > CONFIRMED_DEPTH then height - CONFIRMED_DEPTH else 0
  }

  /** Walks down from the tip while the block is higher than h. */
  function Descend(ch: seq<BlockVal>, h: u32): BlockVal
    requires |ch| > 0
    decreases |ch|
  {
    if Tip(ch).meta.height <= h || |ch| == 1 then Tip(ch) else Descend(ch[..|ch| - 1], h)
  }

  ghost function ConfirmedOf(blocks: map<Hash, BlockVal>, b: BlockVal): BlockVal {
    Descend(Ancestry(blocks, b), ConfirmedHeight(b.meta.height))
  }

  /** The walk stops at the uppermost ancestor that is low enough; there always is one, and on a chain
      whose heights are positions it is the ancestor at that very height. */
  lemma {:induction false} DescendStops(ch: seq<BlockVal>, h: u32) returns (i: nat)
    requires |ch| > 0 && ch[0].meta.height == 0
    ensures i < |ch| && Descend(ch, h) == ch[i]
    ensures ch[i].meta.height <= h
    ensures forall j :: i < j < |ch| ==> ch[j].meta.height > h
    ensures (forall j :: 0 <= j < |ch| ==> ch[j].meta.height == j) && h < |ch| ==> i == h
    decreases |ch|
  {
    i := |ch| - 1;
    if !(Tip(ch).meta.height <= h || |ch| == 1) {
      i := DescendStops(ch[..|ch| - 1], h);
    }
  }

  // ---------------------------------------------------------------- receiving a block

  /** Re-reads the confirmed block from the tip and forgets the pending transactions it contains. */
  ghost function SetLastConfirmed(env: Env, n: NodeVal): NodeVal {
    var c := ConfirmedOf(n.blocks, n.last);
    n.(confirmed := c,
       outgoing := set t | t in n.outgoing && !Contains(env, c.book.txs, t))
  }

  datatype Receipt =
    | Dropped
    | Parked(asked: bool)
    | Stored(block: BlockVal, freed: map<Hash, BlockVal>)
    | Crashed

  /** Files b under its hash, moves the tip if b is higher, and frees the blocks that waited for b. */
  ghost function Keep(env: Env, n: NodeVal, b: BlockVal): (NodeVal, Receipt) {
    var id := HashOf(env, b);
    var filed := n.(blocks := n.blocks[id := b]);
    var tipped := if n.last.meta.height < b.meta.height then SetLastConfirmed(env, filed.(last := b)) else filed;
    (tipped.(parked := n.parked - {id}),
     Stored(b, if id in n.parked then n.parked[id] else map[]))
  }

  ghost function Park(env: Env, n: NodeVal, b: BlockVal): (NodeVal, Receipt) {
    var k, id := b.meta.prev, HashOf(env, b);
    var waiting := if k in n.parked then n.parked[k] else map[];
    (n.(parked := n.parked[k := if id in waiting then waiting else waiting[id := b]]),
     Parked(k !in n.parked))
  }

  /** Client.ReceiveBlock, and Miner.ReceiveBlock up to the cut-over. */
  ghost function Receive(env: Env, n: NodeVal, b: BlockVal): (NodeVal, Receipt) {
    if HashOf(env, b) in n.blocks then (n, Dropped)
    else if b.meta.height == 0 then Keep(env, n, b)
    else if !HasValidProof(env, b) then (n, Dropped)
    else if b.meta.prev !in n.blocks then Park(env, n, b)
    else
      match Rerun(env, b.book.txs, n.blocks[b.meta.prev])
      case Accepted(book) => Keep(env, n, BlockVal(b.meta, book))
      case Rejected(_) => (n, Dropped)
      case Panic => (n, Crashed)
  }

  // ---------------------------------------------------------------- the store invariant

  ghost predicate TreeInv(env: Env, blocks: map<Hash, BlockVal>) {
    && (forall h :: h in blocks ==> HashOf(env, blocks[h]) == h)
    && (forall h :: h in blocks && blocks[h].meta.height > 0 ==>
          blocks[h].meta.prev in blocks && Link(env, blocks[blocks[h].meta.prev], blocks[h]))
    && (forall h :: h in blocks ==> Rooted(blocks, blocks[h]))
  }

  /** b waits under k: k is its parent, which is missing. */
  ghost predicate WaitsFor(env: Env, k: Hash, id: Hash, b: BlockVal) {
    HashOf(env, b) == id && b.meta.prev == k && b.meta.height > 0 && HasValidProof(env, b)
  }

  ghost predicate ParkedInv(env: Env, blocks: map<Hash, BlockVal>, parked: map<Hash, map<Hash, BlockVal>>) {
    && (forall k :: k in parked ==> k !in blocks && parked[k] != map[])
    && (forall k, id :: k in parked && id in parked[k] ==> WaitsFor(env, k, id, parked[k][id]))
  }

  ghost predicate TipInv(env: Env, blocks: map<Hash, BlockVal>, last: BlockVal, confirmed: BlockVal) {
    && HashOf(env, last) in blocks && blocks[HashOf(env, last)] == last
    && (forall h :: h in blocks ==> blocks[h].meta.height <= last.meta.height)
    && confirmed == ConfirmedOf(blocks, last)
  }

  /** What every node keeps, whatever messages it gets: keys are hashes, parents are stored, books are
      replays, links are acyclic, parked blocks wait for a missing parent, the tip is a highest block. */
  ghost predicate NodeInv(env: Env, n: NodeVal) {
    && TreeInv(env, n.blocks)
    && ParkedInv(env, n.blocks, n.parked)
    && TipInv(env, n.blocks, n.last, n.confirmed)
  }

  ghost function Fresh(env: Env, address: Address, key: string, config: Config, genesis: BlockVal): NodeVal {
    NodeVal(address, key, config, map[HashOf(env, genesis) := genesis], map[], genesis, genesis,
            {}, 0, None, {})
  }

  lemma FreshInv(env: Env, address: Address, key: string, config: Config, genesis: BlockVal)
    requires genesis.meta.height == 0
    ensures NodeInv(env, Fresh(env, address, key, config, genesis))
  {
    AncestryOfRoot(map[HashOf(env, genesis) := genesis], genesis);
  }

  lemma PathIsChain(env: Env, blocks: map<Hash, BlockVal>, b: BlockVal)
    requires TreeInv(env, blocks) && HashOf(env, b) in blocks && blocks[HashOf(env, b)] == b
    ensures Rooted(blocks, b) && Chain(env, Ancestry(blocks, b))
    ensures forall i :: 0 <= i < |Ancestry(blocks, b)| ==>
              HashOf(env, Ancestry(blocks, b)[i]) in blocks
              && blocks[HashOf(env, Ancestry(blocks, b)[i])] == Ancestry(blocks, b)[i]
  {
    hide Link;
    var ch := Ancestry(blocks, b);
    assert Rooted(blocks, blocks[HashOf(env, b)]);
    forall i | 0 <= i < |ch|
      ensures HashOf(env, ch[i]) in blocks && blocks[HashOf(env, ch[i])] == ch[i]
    {
      if i < |ch| - 1 { assert ch[i + 1].meta.prev in blocks && blocks[ch[i + 1].meta.prev] == ch[i]; }
    }
    forall i | 0 < i < |ch| ensures Link(env, ch[i - 1], ch[i]) {
      assert HashOf(env, ch[i]) in blocks;
    }
  }

  /** Re-filing an already stored block, which happens to a message with wrong transaction ids,
      stores the very same block again. */
  lemma RefiledIsSame(env: Env, n: NodeVal, b: BlockVal)
    requires Ideal(env) && NodeInv(env, n) && HashOf(env, b) in n.blocks
    requires b.meta.height > 0 && b.meta.prev in n.blocks && Link(env, n.blocks[b.meta.prev], b)
    ensures n.blocks[HashOf(env, b)] == b
  {
    SameHash(env, n.blocks[HashOf(env, b)], b);
  }

  /** A block may be filed: it is new or identical, and it is a root or a proper child. */
  ghost predicate Fileable(env: Env, blocks: map<Hash, BlockVal>, b: BlockVal) {
    && (HashOf(env, b) in blocks ==> blocks[HashOf(env, b)] == b)
    && (b.meta.height > 0 ==> b.meta.prev in blocks && Link(env, blocks[b.meta.prev], b))
  }

  lemma FileKeepsRoots(env: Env, blocks: map<Hash, BlockVal>, b: BlockVal)
    requires TreeInv(env, blocks) && Fileable(env, blocks, b)
    requires Extends(blocks, blocks[HashOf(env, b) := b])
    ensures var more := blocks[HashOf(env, b) := b]; forall h :: h in more ==> Rooted(more, more[h])
  {
    hide Link;
    hide Ancestry;
    hide HashOf;
    hide Path;
    var id := HashOf(env, b);
    var more := blocks[id := b];
    if b.meta.height == 0 {
      AncestryOfRoot(more, b);
    } else {
      assert Rooted(blocks, blocks[b.meta.prev]);
      AncestryGrows(blocks, more, blocks[b.meta.prev]);
      AncestryOfChild(more, b);
    }
    forall h | h in more ensures Rooted(more, more[h]) {
      if h != id {
        assert Rooted(blocks, blocks[h]);
        AncestryGrows(blocks, more, blocks[h]);
      }
    }
  }

  lemma FileKeepsTree(env: Env, blocks: map<Hash, BlockVal>, b: BlockVal)
    requires TreeInv(env, blocks) && Fileable(env, blocks, b)
    ensures var more := blocks[HashOf(env, b) := b]; Extends(blocks, more) && TreeInv(env, more)
  {
    hide Link;
    hide Rooted;
    var id := HashOf(env, b);
    hide HashOf;
    var more := blocks[id := b];
    assert Extends(blocks, more);
    forall h | h in more && more[h].meta.height > 0
      ensures more[h].meta.prev in more && Link(env, more[more[h].meta.prev], more[h])
    {
      assert h != id ==> h in blocks;
    }
    FileKeepsRoots(env, blocks, b);
  }

  lemma UnparkKeepsInv(env: Env, blocks: map<Hash, BlockVal>, parked: map<Hash, map<Hash, BlockVal>>, id: Hash, b: BlockVal)
    requires ParkedInv(env, blocks, parked)
    ensures ParkedInv(env, blocks[id := b], parked - {id})
  {
    hide WaitsFor;
  }

  lemma FileKeepsTip(env: Env, blocks: map<Hash, BlockVal>, last: BlockVal, confirmed: BlockVal, b: BlockVal)
    requires TreeInv(env, blocks) && TipInv(env, blocks, last, confirmed) && Fileable(env, blocks, b)
    ensures var more := blocks[HashOf(env, b) := b];
            if last.meta.height < b.meta.height then TipInv(env, more, b, ConfirmedOf(more, b))
            else TipInv(env, more, last, confirmed)
  {
    hide Link;
    hide Rooted;
    hide Ancestry;
    hide Descend;
    var more := blocks[HashOf(env, b) := b];
    assert Extends(blocks, more);
    RootedIfStored(env, blocks, last);
    AncestryGrows(blocks, more, last);
  }

  lemma KeepKeepsInv(env: Env, n: NodeVal, b: BlockVal)
    requires NodeInv(env, n) && Fileable(env, n.blocks, b)
    ensures NodeInv(env, Keep(env, n, b).0)
    ensures Extends(n.blocks, Keep(env, n, b).0.blocks)
  {
    hide TreeInv;
    hide ParkedInv;
    hide TipInv;
    hide ConfirmedOf;
    hide Contains;
    hide Fileable;
    hide Extends;
    FileKeepsTree(env, n.blocks, b);
    UnparkKeepsInv(env, n.blocks, n.parked, HashOf(env, b), b);
    FileKeepsTip(env, n.blocks, n.last, n.confirmed, b);
  }

  lemma RootedIfStored(env: Env, blocks: map<Hash, BlockVal>, b: BlockVal)
    requires TreeInv(env, blocks) && HashOf(env, b) in blocks && blocks[HashOf(env, b)] == b
    ensures Rooted(blocks, b)
  {
  }

  lemma WaitingKeepsInv(env: Env, blocks: map<Hash, BlockVal>, parked: map<Hash, map<Hash, BlockVal>>,
                        k: Hash, waiting: map<Hash, BlockVal>)
    requires ParkedInv(env, blocks, parked) && k !in blocks && waiting != map[]
    requires forall id :: id in waiting ==> WaitsFor(env, k, id, waiting[id])
    ensures ParkedInv(env, blocks, parked[k := waiting])
  {
    hide WaitsFor;
  }

  lemma ParkKeepsInv(env: Env, n: NodeVal, b: BlockVal)
    requires NodeInv(env, n)
    requires b.meta.height > 0 && HasValidProof(env, b) && b.meta.prev !in n.blocks
    ensures NodeInv(env, Park(env, n, b).0)
  {
    hide TreeInv;
    hide TipInv;
    var k, id := b.meta.prev, HashOf(env, b);
    assert WaitsFor(env, k, id, b);
    hide WaitsFor;
    hide HasValidProof;
    hide HashOf;
    var waiting := Park(env, n, b).0.parked[k];
    assert id in waiting;
    WaitingKeepsInv(env, n.blocks, n.parked, k, waiting);
    hide ParkedInv;
  }

  lemma RerunLinks(env: Env, p: BlockVal, b: BlockVal)
    requires b.meta.height > 0 && b.meta.prev == HashOf(env, p) && Rerun(env, b.book.txs, p).Accepted?
    ensures Link(env, p, BlockVal(b.meta, Rerun(env, b.book.txs, p).book))
  {
    RerunIsIdempotent(env, b.book.txs, p);
  }

  /** No message, honest or not, breaks a node's store; and no message changes or drops a stored block. */
  lemma ReceiveKeepsInv(env: Env, n: NodeVal, b: BlockVal)
    requires Ideal(env) && NodeInv(env, n)
    ensures NodeInv(env, Receive(env, n, b).0)
    ensures Extends(n.blocks, Receive(env, n, b).0.blocks)
    ensures Receive(env, n, b).1.Stored? ==> Fileable(env, n.blocks, Receive(env, n, b).1.block)
  {
    hide Keep;
    hide Park;
    hide Link;
    hide ParkedInv;
    hide TipInv;
    var id := HashOf(env, b);
    if id !in n.blocks {
      if b.meta.height == 0 {
        assert Keep(env, n, b).1.Stored? && Keep(env, n, b).1.block == b by { KeepStores(env, n, b); }
        KeepKeepsInv(env, n, b);
      } else if HasValidProof(env, b) {
        if b.meta.prev !in n.blocks {
          ParkKeepsInv(env, n, b);
          ParkParks(env, n, b);
        } else {
          match Rerun(env, b.book.txs, n.blocks[b.meta.prev])
          case Accepted(book) =>
            var kept := BlockVal(b.meta, book);
            RerunLinks(env, n.blocks[b.meta.prev], b);
            if HashOf(env, kept) in n.blocks { RefiledIsSame(env, n, kept); }
            KeepStores(env, n, kept);
            KeepKeepsInv(env, n, kept);
          case _ =>
        }
      }
    }
  }

  lemma KeepStores(env: Env, n: NodeVal, b: BlockVal)
    ensures Keep(env, n, b).1.Stored? && Keep(env, n, b).1.block == b
  {
  }

  lemma ParkParks(env: Env, n: NodeVal, b: BlockVal)
    ensures Park(env, n, b).1.Parked? && Park(env, n, b).0.blocks == n.blocks
  {
  }

  /** Two nodes, fed any messages whatever, that store the same hash: they store the same ancestry,
      ledgers included, exactly when they store the same root; and what the block says about the balance or
      the next nonce of an address is the same on both exactly when what the root says about it is. */
  lemma NodesAgreeIff(env: Env, m: NodeVal, n: NodeVal, h: Hash)
    requires Ideal(env) && NodeInv(env, m) && NodeInv(env, n) && h in m.blocks && h in n.blocks
    ensures var c, d := Ancestry(m.blocks, m.blocks[h]), Ancestry(n.blocks, n.blocks[h]);
            && (c == d <==> c[0] == d[0])
            && (forall a :: Get(m.blocks[h].book.balances, a) == Get(n.blocks[h].book.balances, a)
                            <==> Get(c[0].book.balances, a) == Get(d[0].book.balances, a))
            && (forall a :: Get(m.blocks[h].book.nonces, a) == Get(n.blocks[h].book.nonces, a)
                            <==> Get(c[0].book.nonces, a) == Get(d[0].book.nonces, a))
  {
    hide Chain;
    hide Get;
    PathIsChain(env, m.blocks, m.blocks[h]);
    PathIsChain(env, n.blocks, n.blocks[h]);
    var c, d := Ancestry(m.blocks, m.blocks[h]), Ancestry(n.blocks, n.blocks[h]);
    ChainsHaveRoots(env, c, d);
    AgreementIffSameRoot(env, c, d);
    SameTipSameHeaders(env, c, d);
    forall a
      ensures Get(m.blocks[h].book.balances, a) == Get(n.blocks[h].book.balances, a)
              <==> Get(c[0].book.balances, a) == Get(d[0].book.balances, a)
      ensures Get(m.blocks[h].book.nonces, a) == Get(n.blocks[h].book.nonces, a)
              <==> Get(c[0].book.nonces, a) == Get(d[0].book.nonces, a)
    {
      TipsAgreeIff(env, c, d, a);
    }
  }

  lemma ChainsHaveRoots(env: Env, c: seq<BlockVal>, d: seq<BlockVal>)
    requires Chain(env, c) && Chain(env, d)
    ensures |c| > 0 && |d| > 0
  {
  }

  // ---------------------------------------------------------------- proofs of stored blocks

  /** The transactions of us are those of txs, under whatever ids. */
  ghost predicate Renumbers(us: seq<TxEntry>, txs: seq<TxEntry>) {
    |us| == |txs| && forall i :: 0 <= i < |us| ==> us[i].tx == txs[i].tx
  }

  /** The block had a valid proof under the transaction ids it was received with. */
  ghost predicate Proven(env: Env, b: BlockVal) {
    b.meta.height > 0 ==>
      exists us :: Renumbers(us, b.book.txs) && HasValidProof(env, BlockVal(b.meta, Book(us, [], [])))
  }

  ghost predicate AllProven(env: Env, blocks: map<Hash, BlockVal>) {
    forall h :: h in blocks ==> Proven(env, blocks[h])
  }

  lemma {:induction false} CanonicalRenumbers(env: Env, txs: seq<TxEntry>)
    ensures Renumbers(txs, Canonical(env, txs))
  {
    if txs != [] { CanonicalRenumbers(env, txs[1..]); }
  }

  lemma ProofIgnoresBook(env: Env, b: BlockVal)
    ensures HasValidProof(env, BlockVal(b.meta, Book(b.book.txs, [], []))) <==> HasValidProof(env, b)
  {
  }

  /** The proof is checked before the replay rewrites the ids, so that a stored block need not have a valid
      proof itself. What is stored is the block under its recomputed ids: it has the hash of the message, and
      with it the valid proof, if the ids were right, and otherwise another hash, which meets the target or
      does not. */
  lemma StoredProof(env: Env, n: NodeVal, b: BlockVal)
    requires Ideal(env) && Receive(env, n, b).1.Stored? && b.meta.height > 0
    ensures var kept := Receive(env, n, b).1.block;
            && HasValidProof(env, b) && Proven(env, kept)
            && kept.meta == b.meta && kept.book.txs == Canonical(env, b.book.txs)
            && (HashOf(env, kept) == HashOf(env, b) <==> b.book.txs == Canonical(env, b.book.txs))
            && (b.book.txs == Canonical(env, b.book.txs) ==> HasValidProof(env, kept))
            && (HasValidProof(env, kept) <==>
                  env.magnitude(env.blockHash(Header(b.meta, Canonical(env, b.book.txs)))) < b.meta.target)
  {
    hide Keep;
    hide Park;
    hide Replay;
    ParkParks(env, n, b);
    var s := Rerun(env, b.book.txs, n.blocks[b.meta.prev]);
    var kept := BlockVal(b.meta, s.book);
    KeepStores(env, n, kept);
    RerunIsIdempotent(env, b.book.txs, n.blocks[b.meta.prev]);
    CanonicalRenumbers(env, b.book.txs);
    ProofIgnoresBook(env, b);
    if HashOf(env, kept) == HashOf(env, b) { SameHash(env, kept, b); }
  }

  /** Whatever the messages, every stored block with a parent came with a valid proof. */
  lemma ReceiveKeepsProofs(env: Env, n: NodeVal, b: BlockVal)
    requires Ideal(env) && AllProven(env, n.blocks)
    ensures AllProven(env, Receive(env, n, b).0.blocks)
  {
    var (m, r) := Receive(env, n, b);
    ReceiveFiles(env, n, b);
    if r.Stored? && b.meta.height > 0 { StoredProof(env, n, b); }
    hide Receive;
    hide Proven;
    if r.Stored? && b.meta.height == 0 { RootIsProven(env, r.block); }
  }

  lemma RootIsProven(env: Env, b: BlockVal)
    requires b.meta.height == 0
    ensures Proven(env, b)
  {
  }

  /** The store changes by the stored block only. */
  lemma ReceiveFiles(env: Env, n: NodeVal, b: BlockVal)
    ensures var (m, r) := Receive(env, n, b);
            && m.blocks == (if r.Stored? then n.blocks[HashOf(env, r.block) := r.block] else n.blocks)
            && (r.Stored? ==> r.block.meta == b.meta)
  {
    hide Rerun;
    hide ConfirmedOf;
    hide HashOf;
    hide HasValidProof;
    hide Contains;
  }

  // ---------------------------------------------------------------- missing-block requests

  ghost predicate Known(n: NodeVal, h: Hash) {
    h in n.blocks || h in n.parked
  }

  ghost predicate Asks(env: Env, n: NodeVal, b: BlockVal) {
    Receive(env, n, b).1 == Parked(true)
  }

  lemma ReceiveRemembers(env: Env, n: NodeVal, b: BlockVal, h: Hash)
    ensures Known(n, h) ==> Known(Receive(env, n, b).0, h)
    ensures Asks(env, n, b) ==> !Known(n, b.meta.prev) && Known(Receive(env, n, b).0, b.meta.prev)
  {
    hide Rerun;
    hide ConfirmedOf;
  }

  /** ns is the sequence of states of a node that receives the blocks bs one after the other. */
  ghost predicate Run(env: Env, ns: seq<NodeVal>, bs: seq<BlockVal>) {
    |ns| == |bs| + 1 && forall i :: 0 <= i < |bs| ==> ns[i + 1] == Receive(env, ns[i], bs[i]).0
  }

  lemma {:induction false} RunRemembers(env: Env, ns: seq<NodeVal>, bs: seq<BlockVal>, i: nat, j: nat, h: Hash)
    requires Run(env, ns, bs) && i <= j <= |bs| && Known(ns[i], h)
    ensures Known(ns[j], h)
    decreases j
  {
    hide Receive;
    hide Known;
    if i < j {
      RunRemembers(env, ns, bs, i, j - 1, h);
      ReceiveRemembers(env, ns[j - 1], bs[j - 1], h);
      assert ns[j] == Receive(env, ns[j - 1], bs[j - 1]).0;
    }
  }

  /** Over any run, fed any messages, a node requests a missing block at most once. */
  lemma AsksOnce(env: Env, ns: seq<NodeVal>, bs: seq<BlockVal>, i: nat, j: nat)
    requires Run(env, ns, bs) && i < j < |bs|
    requires Asks(env, ns[i], bs[i]) && Asks(env, ns[j], bs[j])
    ensures bs[i].meta.prev != bs[j].meta.prev
  {
    hide Receive;
    hide Known;
    var h := bs[i].meta.prev;
    ReceiveRemembers(env, ns[i], bs[i], h);
    assert ns[i + 1] == Receive(env, ns[i], bs[i]).0;
    RunRemembers(env, ns, bs, i + 1, j, h);
    ReceiveRemembers(env, ns[j], bs[j], h);
  }
}
