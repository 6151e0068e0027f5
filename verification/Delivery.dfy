/** A node catching up: blocks arrive in any order and any number of times, whatever the peers answer. */
module Delivery {
  import opened Prelude
  import opened Ledger
  import opened Chains
  import opened Store
  import opened Honest
  import opened Forks

  /** One delivery of a broadcast request. */
  datatype Request = Request(peer: nat, hash: Hash)

  /** tasks are ReceiveBlock calls still to run, whether delivered by the network or spawned by an earlier
      call; requests are those not yet delivered to the peer; asked records every request in order. */
  datatype Sync = Sync(node: NodeVal, peers: nat, tasks: multiset<BlockVal>, requests: multiset<Request>, asked: seq<Hash>)

  function Spawned(r: Receipt): multiset<BlockVal> {
    if r.Stored? then multiset(r.freed.Values) else multiset{}
  }

  ghost function RunTask(env: Env, s: Sync, b: BlockVal): Sync {
    var (n, r) := Receive(env, s.node, b);
    var more := if r == Parked(true) then [b.meta.prev] else [];
    Sync(n, s.peers, s.tasks - multiset{b} + Spawned(r), s.requests + ToPeers(s.peers, more), s.asked + more)
  }

  /** A broadcast: one request to each peer. */
  function ToPeers(peers: nat, hs: seq<Hash>): multiset<Request> {
    multiset(set i, h | 0 <= i < peers && h in hs :: Request(i, h))
  }

  /** The peer answers a request, or it does not store the block. */
  function Answer(s: Sync, q: Request, reply: Option<BlockVal>): Sync {
    s.(requests := s.requests - multiset{q}, tasks := s.tasks + if reply.Some? then multiset{reply.value} else multiset{})
  }

  /** What the peers store may change all the time, and a reply may carry any ledger; but the first peer has
      the blocks in kept throughout. */
  ghost predicate Replies(env: Env, kept: set<Hash>, q: Request, reply: Option<BlockVal>) {
    && (reply.Some? ==> HashOf(env, reply.value) == q.hash)
    && (q.peer == 0 && q.hash in kept ==> reply.Some?)
  }

  ghost predicate Step(env: Env, kept: set<Hash>, s: Sync, t: Sync) {
    || (exists b :: b in s.tasks && t == RunTask(env, s, b))
    || (exists q, reply :: q in s.requests && Replies(env, kept, q, reply) && t == Answer(s, q, reply))
  }

  /** A parent-closed set of blocks that a node may store over the root: proofs and replays are valid, and
      nothing else is asked of heights, rewards or costs. There is no second root, because the ledger of a
      root is not replayed, so that of two of them with one hash the first to arrive would win. */
  ghost predicate Closed(env: Env, root: BlockVal, all: map<Hash, BlockVal>) {
    && root.meta.height == 0 && HashOf(env, root) in all
    && (forall h :: h in all ==> HashOf(env, all[h]) == h)
    && (forall h :: h in all && all[h].meta.height == 0 ==> all[h] == root)
    && (forall h :: h in all && all[h].meta.height > 0 ==>
          HasValidProof(env, all[h]) && all[h].meta.prev in all && Link(env, all[all[h].meta.prev], all[h]))
  }

  ghost predicate Inside(env: Env, all: map<Hash, BlockVal>, b: BlockVal) {
    HashOf(env, b) in all
  }

  /** The node stores part of the set, with the ledgers of the set, and only blocks of the set wait. */
  ghost predicate NodeInside(env: Env, root: BlockVal, all: map<Hash, BlockVal>, n: NodeVal) {
    && HashOf(env, root) in n.blocks && Extends(n.blocks, all)
    && n.parked.Keys <= all.Keys
    && (forall k, id :: k in n.parked && id in n.parked[k] ==> Inside(env, all, n.parked[k][id]))
  }

  /** Nothing outside all is ever around. */
  ghost predicate SyncInv(env: Env, root: BlockVal, all: map<Hash, BlockVal>, s: Sync) {
    && NodeInv(env, s.node)
    && NodeInside(env, root, all, s.node)
    && (forall b :: b in s.tasks ==> Inside(env, all, b))
    && (forall q :: q in s.requests ==> q.hash in all)
  }

  lemma InsideIs(env: Env, root: BlockVal, all: map<Hash, BlockVal>, b: BlockVal)
    requires Ideal(env) && Closed(env, root, all) && Inside(env, all, b)
    ensures var h := HashOf(env, b);
            && h in all && b.meta == all[h].meta && b.book.txs == all[h].book.txs
            && (b.meta.height == 0 ==> h == HashOf(env, root))
            && (b.meta.height > 0 ==> HasValidProof(env, b) && b.meta.prev in all && env.age(b.meta.prev) < env.age(h))
  {
    var h := HashOf(env, b);
    SameHash(env, all[h], b);
    IsYounger(env, b);
    ProofIsHeaders(env, all[h], b);
  }

  /** What becomes of a block of the set: nothing depends on the ledger it carries. */
  lemma ReceiveInside(env: Env, root: BlockVal, all: map<Hash, BlockVal>, n: NodeVal, b: BlockVal)
    requires Ideal(env) && Closed(env, root, all) && NodeInside(env, root, all, n) && Inside(env, all, b)
    ensures var r, id := Receive(env, n, b), HashOf(env, b);
            && (id in n.blocks ==> r == (n, Dropped))
            && (id !in n.blocks ==> b.meta.height > 0 && HasValidProof(env, b))
            && (id !in n.blocks && b.meta.prev !in n.blocks ==> r == Park(env, n, b))
            && (id !in n.blocks && b.meta.prev in n.blocks ==> r == Keep(env, n, all[id]))
  {
    hide Keep;
    hide Park;
    hide Rerun;
    hide HasValidProof;
    InsideIs(env, root, all, b);
    var id := HashOf(env, b);
    if id !in n.blocks && b.meta.prev in n.blocks {
      assert n.blocks[b.meta.prev] == all[b.meta.prev];
      assert Link(env, all[b.meta.prev], all[id]);
      assert BlockVal(b.meta, all[id].book) == all[id];
    }
  }

  // ---------------------------------------------------------------- where a block is

  ghost predicate Waiting(n: NodeVal, h: Hash) {
    exists k :: k in n.parked && h in n.parked[k]
  }

  ghost predicate Queued(env: Env, s: Sync, h: Hash) {
    exists b :: b in s.tasks && HashOf(env, b) == h
  }

  /** The block with hash h has reached the node and is not lost. */
  ghost predicate Held(env: Env, s: Sync, h: Hash) {
    h in s.node.blocks || Waiting(s.node, h) || Queued(env, s, h)
  }

  /** The effect of one ReceiveBlock call, in the terms used below. */
  ghost predicate Effect(env: Env, n: NodeVal, b: BlockVal, m: NodeVal, r: Receipt) {
    var id := HashOf(env, b);
    if id in n.blocks then m == n && r == Dropped
    else if b.meta.height > 0 && b.meta.prev !in n.blocks then
      && m.blocks == n.blocks
      && m.parked.Keys == n.parked.Keys + {b.meta.prev}
      && (forall k :: k in n.parked && k != b.meta.prev ==> m.parked[k] == n.parked[k])
      && m.parked[b.meta.prev].Keys == (if b.meta.prev in n.parked then n.parked[b.meta.prev].Keys else {}) + {id}
      && (forall i :: i in m.parked[b.meta.prev] ==>
            m.parked[b.meta.prev][i] == b || (b.meta.prev in n.parked && i in n.parked[b.meta.prev]
                                             && m.parked[b.meta.prev][i] == n.parked[b.meta.prev][i]))
      && r == Parked(b.meta.prev !in n.parked)
    else
      && m.blocks.Keys == n.blocks.Keys + {id}
      && m.parked == n.parked - {id}
      && r.Stored?
      && r.freed == if id in n.parked then n.parked[id] else map[]
  }

  lemma ParkEffect(env: Env, n: NodeVal, b: BlockVal)
    requires HashOf(env, b) !in n.blocks && b.meta.height > 0 && b.meta.prev !in n.blocks
    ensures Effect(env, n, b, Park(env, n, b).0, Park(env, n, b).1)
  {
    hide HashOf;
  }

  lemma KeepEffect(env: Env, n: NodeVal, b: BlockVal, g: BlockVal)
    requires HashOf(env, b) !in n.blocks && HashOf(env, g) == HashOf(env, b) && b.meta.prev in n.blocks
    ensures Effect(env, n, b, Keep(env, n, g).0, Keep(env, n, g).1)
  {
    hide HashOf;
    hide ConfirmedOf;
    hide Contains;
  }

  lemma ReceiveEffect(env: Env, root: BlockVal, all: map<Hash, BlockVal>, n: NodeVal, b: BlockVal)
    requires Ideal(env) && Closed(env, root, all) && NodeInside(env, root, all, n) && Inside(env, all, b)
    ensures Effect(env, n, b, Receive(env, n, b).0, Receive(env, n, b).1)
  {
    hide Receive;
    hide Keep;
    hide Park;
    hide Link;
    hide HasValidProof;
    hide NodeInside;
    ReceiveInside(env, root, all, n, b);
    var id := HashOf(env, b);
    assert id in all && HashOf(env, all[id]) == id;
    hide Closed;
    hide HashOf;
    if id !in n.blocks {
      if b.meta.prev in n.blocks {
        hide Effect;
        KeepEffect(env, n, b, all[id]);
      } else {
        hide Effect;
        ParkEffect(env, n, b);
      }
    }
  }

  // ---------------------------------------------------------------- every step

  lemma StaysInside(env: Env, root: BlockVal, all: map<Hash, BlockVal>, n: NodeVal, b: BlockVal)
    requires Ideal(env) && Closed(env, root, all) && NodeInv(env, n) && NodeInside(env, root, all, n) && Inside(env, all, b)
    ensures var (m, r) := Receive(env, n, b);
            && NodeInv(env, m) && NodeInside(env, root, all, m)
            && (r.Stored? ==> forall id :: id in r.freed ==> Inside(env, all, r.freed[id]))
            && (r == Parked(true) ==> b.meta.prev in all)
  {
    hide Receive;
    hide NodeInv;
    hide Closed;
    hide Effect;
    ReceiveKeepsInv(env, n, b);
    ReceiveFiles(env, n, b);
    ReceiveEffect(env, root, all, n, b);
    InsideIs(env, root, all, b);
    ReceiveInside(env, root, all, n, b);
    var (m, r) := Receive(env, n, b);
    if r.Stored? { StoredIsOf(env, root, all, n, b); }
    EffectStaysInside(env, all, n, b, m, r);
  }

  /** What is stored is the block of the set. */
  lemma StoredIsOf(env: Env, root: BlockVal, all: map<Hash, BlockVal>, n: NodeVal, b: BlockVal)
    requires Ideal(env) && Closed(env, root, all) && NodeInside(env, root, all, n) && Inside(env, all, b)
    requires Receive(env, n, b).1.Stored?
    ensures Receive(env, n, b).1.block == all[HashOf(env, b)]
    ensures HashOf(env, Receive(env, n, b).1.block) == HashOf(env, b)
  {
    hide Receive;
    hide Keep;
    hide Park;
    hide Link;
    ReceiveInside(env, root, all, n, b);
    ParkParks(env, n, b);
    KeepStores(env, n, all[HashOf(env, b)]);
  }

  lemma EffectStaysInside(env: Env, all: map<Hash, BlockVal>, n: NodeVal, b: BlockVal, m: NodeVal, r: Receipt)
    requires n.parked.Keys <= all.Keys && Effect(env, n, b, m, r)
    requires forall k, id :: k in n.parked && id in n.parked[k] ==> Inside(env, all, n.parked[k][id])
    requires Inside(env, all, b) && (b.meta.height > 0 ==> b.meta.prev in all)
    ensures m.parked.Keys <= all.Keys
    ensures forall k, id :: k in m.parked && id in m.parked[k] ==> Inside(env, all, m.parked[k][id])
    ensures r.Stored? ==> forall id :: id in r.freed ==> Inside(env, all, r.freed[id])
    ensures r == Parked(true) ==> b.meta.prev in all
  {
    var id := HashOf(env, b);
    assert id in all;
    if id !in n.blocks && b.meta.height > 0 && b.meta.prev !in n.blocks {
      forall k, i | k in m.parked && i in m.parked[k] ensures Inside(env, all, m.parked[k][i]) {
        if k != b.meta.prev { assert m.parked[k] == n.parked[k]; }
      }
    }
    hide Inside;
  }

  lemma TaskKeepsInv(env: Env, root: BlockVal, all: map<Hash, BlockVal>, s: Sync, b: BlockVal)
    requires Ideal(env) && Closed(env, root, all) && SyncInv(env, root, all, s) && b in s.tasks
    ensures SyncInv(env, root, all, RunTask(env, s, b))
  {
    hide Receive;
    hide NodeInv;
    hide NodeInside;
    hide Closed;
    StaysInside(env, root, all, s.node, b);
    var (m, r) := Receive(env, s.node, b);
    hide Inside;
    hide HashOf;
    forall v | v in Spawned(r) ensures Inside(env, all, v) {
      assert v in r.freed.Values;
    }
  }

  lemma AnswerKeepsInv(env: Env, root: BlockVal, all: map<Hash, BlockVal>, kept: set<Hash>, s: Sync, q: Request, reply: Option<BlockVal>)
    requires SyncInv(env, root, all, s) && q in s.requests && Replies(env, kept, q, reply)
    ensures SyncInv(env, root, all, Answer(s, q, reply))
  {
    hide NodeInv;
    hide HashOf;
    hide NodeInside;
    assert q.hash in all;
  }

  lemma WaiterIsHeld(env: Env, n: NodeVal, b: BlockVal, m: NodeVal, r: Receipt, k: Hash, h: Hash)
    requires Effect(env, n, b, m, r) && k in n.parked && h in n.parked[k]
    ensures if k in m.parked then h in m.parked[k] else r.Stored? && h in r.freed && r.freed[h] == n.parked[k][h]
  {
    hide HashOf;
  }

  lemma TaskIsHeld(env: Env, n: NodeVal, b: BlockVal, m: NodeVal, r: Receipt)
    requires Effect(env, n, b, m, r)
    ensures HashOf(env, b) in m.blocks || (b.meta.prev in m.parked && HashOf(env, b) in m.parked[b.meta.prev])
    ensures forall h :: h in n.blocks ==> h in m.blocks
  {
    hide HashOf;
  }

  lemma TaskHolds(env: Env, root: BlockVal, all: map<Hash, BlockVal>, s: Sync, b: BlockVal, h: Hash)
    requires Ideal(env) && Closed(env, root, all) && SyncInv(env, root, all, s) && b in s.tasks && Held(env, s, h)
    ensures Held(env, RunTask(env, s, b), h)
  {
    hide Receive;
    hide Ideal;
    hide Inside;
    hide Effect;
    hide NodeInv;
    hide NodeInside;
    hide Closed;
    ReceiveEffect(env, root, all, s.node, b);
    WaitersAreNamed(env, s.node);
    hide HashOf;
    var t := RunTask(env, s, b);
    var (m, r) := Receive(env, s.node, b);
    TaskIsHeld(env, s.node, b, m, r);
    if Waiting(s.node, h) {
      var k :| k in s.node.parked && h in s.node.parked[k];
      WaiterIsHeld(env, s.node, b, m, r, k, h);
      if k !in m.parked {
        assert r.freed[h] in r.freed.Values;
        assert r.freed[h] in t.tasks;
      }
    } else if Queued(env, s, h) {
      var v :| v in s.tasks && HashOf(env, v) == h;
      if v != b { assert v in t.tasks; }
    }
  }

  lemma WaitersAreNamed(env: Env, n: NodeVal)
    requires NodeInv(env, n)
    ensures forall k, id :: k in n.parked && id in n.parked[k] ==>
              HashOf(env, n.parked[k][id]) == id && n.parked[k][id].meta.prev == k && n.parked[k][id].meta.height > 0
    ensures forall k :: k in n.parked ==> k !in n.blocks && n.parked[k] != map[]
  {
    hide TreeInv;
    hide TipInv;
    forall k, id | k in n.parked && id in n.parked[k]
      ensures HashOf(env, n.parked[k][id]) == id && n.parked[k][id].meta.prev == k && n.parked[k][id].meta.height > 0
    {
      assert WaitsFor(env, k, id, n.parked[k][id]);
    }
  }

  lemma AnswerHolds(env: Env, s: Sync, q: Request, reply: Option<BlockVal>, h: Hash)
    requires Held(env, s, h)
    ensures Held(env, Answer(s, q, reply), h)
  {
    if Queued(env, s, h) {
      var v :| v in s.tasks && HashOf(env, v) == h;
      assert v in Answer(s, q, reply).tasks;
    }
  }

  /** No step loses anything, and only blocks of the set are ever seen. */
  lemma StepKeeps(env: Env, root: BlockVal, all: map<Hash, BlockVal>, kept: set<Hash>, s: Sync, t: Sync)
    requires Ideal(env) && Closed(env, root, all)
    requires SyncInv(env, root, all, s) && Step(env, kept, s, t)
    ensures SyncInv(env, root, all, t)
    ensures forall h :: Held(env, s, h) ==> Held(env, t, h)
  {
    hide SyncInv;
    hide Closed;
    hide Ideal;
    hide Held;
    hide RunTask;
    hide Answer;
    hide Replies;
    if b :| b in s.tasks && t == RunTask(env, s, b) {
      TaskKeepsInv(env, root, all, s, b);
      forall h | Held(env, s, h) ensures Held(env, t, h) { TaskHolds(env, root, all, s, b, h); }
    } else {
      var q, reply :| q in s.requests && Replies(env, kept, q, reply) && t == Answer(s, q, reply);
      AnswerKeepsInv(env, root, all, kept, s, q, reply);
      forall h | Held(env, s, h) ensures Held(env, t, h) { AnswerHolds(env, s, q, reply, h); }
    }
  }

  // ---------------------------------------------------------------- no run goes on for ever

  ghost function Unstored(all: map<Hash, BlockVal>, n: NodeVal): nat {
    |all.Keys - n.blocks.Keys|
  }

  ghost function Unknown(all: map<Hash, BlockVal>, n: NodeVal): nat {
    |all.Keys - n.blocks.Keys - n.parked.Keys|
  }

  ghost function Load(s: Sync): nat {
    |s.tasks| + 2 * |s.requests|
  }

  /** What every step makes smaller: blocks still to store, then hashes still to hear of, then work. */
  ghost predicate Progress(all: map<Hash, BlockVal>, s: Sync, t: Sync) {
    || Unstored(all, t.node) < Unstored(all, s.node)
    || (Unstored(all, t.node) == Unstored(all, s.node)
        && (|| Unknown(all, t.node) < Unknown(all, s.node)
            || (Unknown(all, t.node) == Unknown(all, s.node) && Load(t) < Load(s))))
  }

  lemma SmallerDifference<T>(a: set<T>, b: set<T>, x: T)
    requires x in a && x !in b
    ensures |a - (b + {x})| < |a - b|
  {
    assert a - (b + {x}) == (a - b) - {x};
  }

  /** What one call does to the two key sets. */
  ghost predicate KeysMove(n: NodeVal, id: Hash, prev: Hash, m: NodeVal, r: Receipt) {
    match r
    case Dropped => m == n
    case Stored(_, _) => id !in n.blocks && m.blocks.Keys == n.blocks.Keys + {id}
    case Parked(asked) =>
      && m.blocks == n.blocks && m.parked.Keys == n.parked.Keys + {prev}
      && prev !in n.blocks && (asked <==> prev !in n.parked)
    case Crashed => false
  }

  lemma EffectMovesKeys(env: Env, n: NodeVal, b: BlockVal, m: NodeVal, r: Receipt)
    requires Effect(env, n, b, m, r)
    ensures KeysMove(n, HashOf(env, b), b.meta.prev, m, r)
    ensures r.Parked? ==> b.meta.height > 0
  {
    hide HashOf;
  }

  /** One call drops its block, stores one more, hears of one more hash, or just parks. */
  lemma KeysProgress(all: map<Hash, BlockVal>, n: NodeVal, id: Hash, prev: Hash, m: NodeVal, r: Receipt)
    requires KeysMove(n, id, prev, m, r) && id in all && (r.Parked? ==> prev in all)
    ensures !r.Stored? ==> Unstored(all, m) == Unstored(all, n)
    ensures r.Stored? ==> Unstored(all, m) < Unstored(all, n)
    ensures r == Parked(true) ==> Unknown(all, m) < Unknown(all, n)
    ensures r == Parked(false) || r == Dropped ==> Unknown(all, m) == Unknown(all, n)
  {
    ghost var u, known, waits := all.Keys, n.blocks.Keys, n.parked.Keys;
    match r
    case Dropped =>
    case Stored(_, _) => SmallerDifference(u, known, id);
    case Parked(asked) =>
      if asked { SmallerDifference(u - known, waits, prev); } else { SameUnion(waits, prev); }
  }

  lemma SameUnion<T>(a: set<T>, x: T)
    requires x in a
    ensures a + {x} == a
  {
  }

  lemma LoadOfTask(s: Sync, b: BlockVal, n: NodeVal, r: Receipt, more: seq<Hash>)
    requires b in s.tasks && !r.Stored? && more == []
    ensures Load(Sync(n, s.peers, s.tasks - multiset{b} + Spawned(r), s.requests + ToPeers(s.peers, more), s.asked + more)) < Load(s)
  {
    assert ToPeers(s.peers, more) == multiset{};
  }

  lemma TaskProgresses(env: Env, root: BlockVal, all: map<Hash, BlockVal>, s: Sync, b: BlockVal)
    requires Ideal(env) && Closed(env, root, all) && SyncInv(env, root, all, s) && b in s.tasks
    ensures Progress(all, s, RunTask(env, s, b))
  {
    hide Receive;
    hide Ideal;
    hide Effect;
    hide Unstored;
    hide Unknown;
    hide NodeInv;
    hide Closed;
    hide NodeInside;
    InsideIs(env, root, all, b);
    ReceiveEffect(env, root, all, s.node, b);
    hide Inside;
    hide HashOf;
    var (m, r) := Receive(env, s.node, b);
    EffectMovesKeys(env, s.node, b, m, r);
    KeysProgress(all, s.node, HashOf(env, b), b.meta.prev, m, r);
    if !r.Stored? && r != Parked(true) { LoadOfTask(s, b, m, r, []); }
  }

  lemma StepProgresses(env: Env, root: BlockVal, all: map<Hash, BlockVal>, kept: set<Hash>, s: Sync, t: Sync)
    requires Ideal(env) && Closed(env, root, all) && SyncInv(env, root, all, s) && Step(env, kept, s, t)
    ensures Progress(all, s, t)
  {
    hide Ideal;
    hide Closed;
    hide SyncInv;
    hide RunTask;
    hide Replies;
    if b :| b in s.tasks && t == RunTask(env, s, b) {
      TaskProgresses(env, root, all, s, b);
    }
  }

  ghost predicate Quiet(s: Sync) {
    s.tasks == multiset{} && s.requests == multiset{}
  }

  /** Whatever the order of deliveries and answers, the run comes to rest. */
  lemma EveryRunSettles(env: Env, root: BlockVal, all: map<Hash, BlockVal>, kept: set<Hash>, run: nat -> Sync, i: nat)
    returns (k: nat)
    requires Ideal(env) && Closed(env, root, all) && SyncInv(env, root, all, run(i))
    requires forall j: nat :: Quiet(run(j)) || Step(env, kept, run(j), run(j + 1))
    ensures k >= i && Quiet(run(k))
    decreases Unstored(all, run(i).node), Unknown(all, run(i).node), Load(run(i))
  {
    hide Step;
    hide SyncInv;
    hide Closed;
    hide Ideal;
    hide Held;
    if Quiet(run(i)) {
      k := i;
    } else {
      StepKeeps(env, root, all, kept, run(i), run(i + 1));
      StepProgresses(env, root, all, kept, run(i), run(i + 1));
      k := EveryRunSettles(env, root, all, kept, run, i + 1);
    }
  }

  // ---------------------------------------------------------------- what was asked for

  ghost predicate NoRepeats(hs: seq<Hash>) {
    forall i, j :: 0 <= i < j < |hs| ==> hs[i] != hs[j]
  }

  /** Every orphan's parent is on its way. */
  ghost predicate Promised(env: Env, s: Sync) {
    forall k :: k in s.node.parked ==> Request(0, k) in s.requests || Held(env, s, k)
  }

  /** Everything on its way was first or was asked for. */
  ghost predicate Traced(env: Env, genesis: Hash, first: Hash, s: Sync) {
    && (forall h :: Held(env, s, h) ==> h == genesis || h == first || h in s.asked)
    && (forall q :: q in s.requests ==> q.hash in s.asked)
  }

  /** Nothing is asked for twice, and what is asked for lies strictly between the genesis and first. */
  ghost predicate AskedOnce(all: map<Hash, BlockVal>, genesis: Hash, first: Hash, s: Sync) {
    && NoRepeats(s.asked)
    && forall h :: h in s.asked ==> h != genesis && h != first && h in all && Known(s.node, h)
  }

  ghost predicate LogInv(env: Env, all: map<Hash, BlockVal>, genesis: Hash, first: Hash, s: Sync) {
    && genesis in s.node.blocks && s.peers > 0
    && Promised(env, s)
    && Traced(env, genesis, first, s)
    && AskedOnce(all, genesis, first, s)
  }

  /** No block of the set has first as its parent. */
  ghost predicate Topmost(all: map<Hash, BlockVal>, first: Hash) {
    forall h :: h in all && all[h].meta.height > 0 ==> all[h].meta.prev != first
  }

  lemma EffectBringsNothingNew(env: Env, n: NodeVal, b: BlockVal, m: NodeVal, r: Receipt, k: Hash, h: Hash)
    requires Effect(env, n, b, m, r) && k in m.parked && h in m.parked[k]
    ensures h == HashOf(env, b) || (k in n.parked && h in n.parked[k])
  {
    hide HashOf;
  }

  lemma FreedWereWaiting(env: Env, n: NodeVal, b: BlockVal, m: NodeVal, r: Receipt)
    requires Effect(env, n, b, m, r)
    ensures forall h :: h in m.blocks ==> h in n.blocks || h == HashOf(env, b)
    ensures r.Stored? && r.freed != map[] ==> HashOf(env, b) in n.parked && r.freed == n.parked[HashOf(env, b)]
  {
    hide HashOf;
  }

  lemma QueuedWasHeld(env: Env, s: Sync, b: BlockVal, n: NodeVal, r: Receipt, more: seq<Hash>, h: Hash)
    requires r.Stored? && r.freed != map[] ==> HashOf(env, b) in s.node.parked && r.freed == s.node.parked[HashOf(env, b)]
    requires forall k, id :: k in s.node.parked && id in s.node.parked[k] ==> HashOf(env, s.node.parked[k][id]) == id
    requires Queued(env, Sync(n, s.peers, s.tasks - multiset{b} + Spawned(r), s.requests + ToPeers(s.peers, more), s.asked + more), h)
    ensures Held(env, s, h)
  {
    hide HashOf;
    var v :| v in s.tasks - multiset{b} + Spawned(r) && HashOf(env, v) == h;
    if v !in s.tasks {
      assert v in Spawned(r);
      var id :| id in r.freed && r.freed[id] == v;
      assert id in s.node.parked[HashOf(env, b)];
    }
  }

  lemma TaskHoldsNothingNew(env: Env, root: BlockVal, all: map<Hash, BlockVal>, s: Sync, b: BlockVal, h: Hash)
    requires Ideal(env) && Closed(env, root, all) && SyncInv(env, root, all, s) && b in s.tasks
    requires Held(env, RunTask(env, s, b), h)
    ensures Held(env, s, h)
  {
    hide Receive;
    hide Ideal;
    hide Inside;
    hide Effect;
    hide NodeInv;
    hide Closed;
    hide NodeInside;
    ReceiveEffect(env, root, all, s.node, b);
    WaitersAreNamed(env, s.node);
    hide SyncInv;
    assert Queued(env, s, HashOf(env, b));
    hide HashOf;
    hide Queued;
    var t := RunTask(env, s, b);
    var (m, r) := Receive(env, s.node, b);
    FreedWereWaiting(env, s.node, b, m, r);
    if Waiting(m, h) {
      var k :| k in m.parked && h in m.parked[k];
      EffectBringsNothingNew(env, s.node, b, m, r, k, h);
    } else if Queued(env, t, h) {
      QueuedWasHeld(env, s, b, m, r, if r == Parked(true) then [b.meta.prev] else [], h);
    }
  }

  /** The bookkeeping of one call, with everything but the log abstracted away. */
  ghost predicate LogStep(env: Env, all: map<Hash, BlockVal>, genesis: Hash, first: Hash, s: Sync, t: Sync, more: seq<Hash>) {
    && (forall h :: Held(env, t, h) <==> Held(env, s, h))
    && (forall q :: q in t.requests <==> q in s.requests || (q.peer < s.peers && q.hash in more))
    && t.peers == s.peers
    && t.asked == s.asked + more
    && (forall h :: Known(s.node, h) ==> Known(t.node, h))
    && genesis in t.node.blocks
    && (forall k :: k in t.node.parked ==> k in s.node.parked || k in more)
    && (|more| == 0 || (|more| == 1 && !Known(s.node, more[0]) && Known(t.node, more[0])
                        && more[0] in all && more[0] != first && more[0] != genesis))
  }

  lemma AskedOnceMore(all: map<Hash, BlockVal>, genesis: Hash, first: Hash, s: Sync, t: Sync, more: seq<Hash>)
    requires AskedOnce(all, genesis, first, s)
    requires t.asked == s.asked + more && forall h :: Known(s.node, h) ==> Known(t.node, h)
    requires |more| == 0 || (|more| == 1 && !Known(s.node, more[0]) && Known(t.node, more[0])
                             && more[0] in all && more[0] != first && more[0] != genesis)
    ensures AskedOnce(all, genesis, first, t)
  {
    hide Known;
    forall h | h in t.asked ensures h != genesis && h != first && h in all && Known(t.node, h) {
      if h !in s.asked { assert h in more; }
    }
    if |more| == 1 { assert more[0] !in s.asked; }
  }

  lemma LogStepKeeps(env: Env, all: map<Hash, BlockVal>, genesis: Hash, first: Hash, s: Sync, t: Sync, more: seq<Hash>)
    requires LogInv(env, all, genesis, first, s) && LogStep(env, all, genesis, first, s, t, more)
    ensures LogInv(env, all, genesis, first, t)
  {
    hide Held;
    hide Known;
    hide AskedOnce;
    AskedOnceMore(all, genesis, first, s, t, more);
  }

  lemma TaskHoldsTheSame(env: Env, root: BlockVal, all: map<Hash, BlockVal>, s: Sync, b: BlockVal)
    requires Ideal(env) && Closed(env, root, all) && SyncInv(env, root, all, s) && b in s.tasks
    ensures forall h :: Held(env, s, h) <==> Held(env, RunTask(env, s, b), h)
  {
    hide Ideal;
    hide Closed;
    hide SyncInv;
    hide Held;
    hide RunTask;
    forall h ensures Held(env, s, h) <==> Held(env, RunTask(env, s, b), h) {
      if Held(env, s, h) { TaskHolds(env, root, all, s, b, h); }
      if Held(env, RunTask(env, s, b), h) { TaskHoldsNothingNew(env, root, all, s, b, h); }
    }
  }

  lemma TaskRemembers(env: Env, n: NodeVal, b: BlockVal)
    ensures forall h :: Known(n, h) ==> Known(Receive(env, n, b).0, h)
    ensures Asks(env, n, b) ==> !Known(n, b.meta.prev) && Known(Receive(env, n, b).0, b.meta.prev)
  {
    hide Receive;
    hide Known;
    forall h ensures Known(n, h) ==> Known(Receive(env, n, b).0, h) { ReceiveRemembers(env, n, b, h); }
    ReceiveRemembers(env, n, b, b.meta.prev);
  }

  lemma TaskFacts(env: Env, root: BlockVal, all: map<Hash, BlockVal>, genesis: Hash, first: Hash, s: Sync, b: BlockVal)
    requires Ideal(env) && Closed(env, root, all) && SyncInv(env, root, all, s) && b in s.tasks
    requires genesis in s.node.blocks && Topmost(all, first)
    ensures var (m, r) := Receive(env, s.node, b);
            && (r == Parked(true) ==> b.meta.prev in all && b.meta.prev != first && b.meta.prev != genesis)
            && (forall k :: k in m.parked ==> k in s.node.parked || (r == Parked(true) && k == b.meta.prev))
            && genesis in m.blocks
  {
    hide Receive;
    hide Ideal;
    hide Effect;
    hide NodeInv;
    hide NodeInside;
    hide Topmost;
    hide Closed;
    InsideIs(env, root, all, b);
    ReceiveEffect(env, root, all, s.node, b);
    hide Inside;
    TaskLogs(env, all, genesis, first, s.node, b);
  }

  lemma TaskKeepsLog(env: Env, root: BlockVal, all: map<Hash, BlockVal>, genesis: Hash, first: Hash, s: Sync, b: BlockVal)
    requires Ideal(env) && Closed(env, root, all) && SyncInv(env, root, all, s) && b in s.tasks
    requires LogInv(env, all, genesis, first, s) && Topmost(all, first)
    ensures LogInv(env, all, genesis, first, RunTask(env, s, b))
  {
    hide Held;
    hide Receive;
    hide Known;
    hide Ideal;
    hide Closed;
    hide SyncInv;
    hide NoRepeats;
    hide Topmost;
    hide Promised;
    hide Traced;
    hide AskedOnce;
    hide ToPeers;
    TaskFacts(env, root, all, genesis, first, s, b);
    TaskHoldsTheSame(env, root, all, s, b);
    TaskRemembers(env, s.node, b);
    var more := if Receive(env, s.node, b).1 == Parked(true) then [b.meta.prev] else [];
    ToPeersIs(s.peers, more);
    LogStepKeeps(env, all, genesis, first, s, RunTask(env, s, b), more);
  }

  lemma ToPeersIs(peers: nat, hs: seq<Hash>)
    ensures forall q :: q in ToPeers(peers, hs) <==> q.peer < peers && q.hash in hs
  {
    forall q: Request ensures q in ToPeers(peers, hs) <==> q.peer < peers && q.hash in hs {
      assert q == Request(q.peer, q.hash);
    }
  }

  /** The request one call makes is for a new block of the set, strictly between the two ends. */
  lemma TaskLogs(env: Env, all: map<Hash, BlockVal>, genesis: Hash, first: Hash, n: NodeVal, b: BlockVal)
    requires HashOf(env, b) in all && b.meta == all[HashOf(env, b)].meta && Topmost(all, first)
    requires b.meta.height > 0 ==> b.meta.prev in all
    requires Effect(env, n, b, Receive(env, n, b).0, Receive(env, n, b).1)
    requires genesis in n.blocks
    ensures var (m, r) := Receive(env, n, b);
            && (r == Parked(true) ==> b.meta.prev in all && b.meta.prev != first && b.meta.prev != genesis)
            && (forall k :: k in m.parked ==> k in n.parked || (r == Parked(true) && k == b.meta.prev))
            && genesis in m.blocks
  {
    hide Receive;
  }

  /** An answer, if there is one, is a block with the hash asked for. */
  lemma AnswerHoldsOnlyThat(env: Env, kept: set<Hash>, s: Sync, q: Request, reply: Option<BlockVal>, x: Hash)
    requires Replies(env, kept, q, reply)
    requires Held(env, Answer(s, q, reply), x)
    ensures Held(env, s, x) || x == q.hash
  {
    var t := Answer(s, q, reply);
    hide HashOf;
    if Queued(env, t, x) {
      var v :| v in t.tasks && HashOf(env, v) == x;
      if v !in s.tasks { assert v == reply.value; }
    }
  }

  lemma FirstPeerAnswers(env: Env, kept: set<Hash>, s: Sync, q: Request, reply: Option<BlockVal>)
    requires Replies(env, kept, q, reply) && q.hash in kept && q.peer == 0
    ensures Held(env, Answer(s, q, reply), q.hash)
  {
    assert reply.value in Answer(s, q, reply).tasks;
  }

  lemma AnswerKeepsLog(env: Env, root: BlockVal, all: map<Hash, BlockVal>, kept: set<Hash>,
                       genesis: Hash, first: Hash, s: Sync, q: Request, reply: Option<BlockVal>)
    requires SyncInv(env, root, all, s) && all.Keys <= kept && q in s.requests && Replies(env, kept, q, reply)
    requires LogInv(env, all, genesis, first, s)
    ensures LogInv(env, all, genesis, first, Answer(s, q, reply))
  {
    hide NodeInv;
    hide NodeInside;
    hide Held;
    hide NoRepeats;
    hide Known;
    hide AskedOnce;
    hide HashOf;
    hide Replies;
    assert q.hash in all;
    hide SyncInv;
    var t := Answer(s, q, reply);
    forall x ensures Held(env, s, x) ==> Held(env, t, x) ensures Held(env, t, x) ==> Held(env, s, x) || x == q.hash {
      if Held(env, s, x) { AnswerHolds(env, s, q, reply, x); }
      if Held(env, t, x) { AnswerHoldsOnlyThat(env, kept, s, q, reply, x); }
    }
    if q.peer == 0 { FirstPeerAnswers(env, kept, s, q, reply); }
    assert forall x :: (x in t.requests ==> x in s.requests) && (x in s.requests && x != q ==> x in t.requests);
    assert t.node == s.node && t.asked == s.asked;
    hide Answer;
    assert AskedOnce(all, genesis, first, t) by { AskedOnceMore(all, genesis, first, s, t, []); }
  }

  lemma StepKeepsLog(env: Env, root: BlockVal, all: map<Hash, BlockVal>, kept: set<Hash>,
                     genesis: Hash, first: Hash, s: Sync, t: Sync)
    requires Ideal(env) && Closed(env, root, all) && SyncInv(env, root, all, s) && all.Keys <= kept
    requires LogInv(env, all, genesis, first, s) && Topmost(all, first) && Step(env, kept, s, t)
    ensures LogInv(env, all, genesis, first, t)
  {
    hide Ideal;
    hide Closed;
    hide SyncInv;
    hide RunTask;
    hide Answer;
    hide Replies;
    hide LogInv;
    if b :| b in s.tasks && t == RunTask(env, s, b) {
      TaskKeepsLog(env, root, all, genesis, first, s, b);
    } else {
      var q, reply :| q in s.requests && Replies(env, kept, q, reply) && t == Answer(s, q, reply);
      AnswerKeepsLog(env, root, all, kept, genesis, first, s, q, reply);
    }
  }

  // ---------------------------------------------------------------- at rest

  /** A held block of the set that is not stored waits for a missing parent of the set, which is older. */
  lemma HeldOrMissing(env: Env, root: BlockVal, all: map<Hash, BlockVal>, s: Sync, h: Hash)
    requires Ideal(env) && Closed(env, root, all) && SyncInv(env, root, all, s) && s.tasks == multiset{}
    requires h in all && Held(env, s, h) && h !in s.node.blocks
    ensures var k := all[h].meta.prev;
            k in s.node.parked && k !in s.node.blocks && k in all && env.age(k) < env.age(h)
  {
    hide Ideal;
    hide Closed;
    hide NodeInv;
    WaitersAreNamed(env, s.node);
    var k :| k in s.node.parked && h in s.node.parked[k];
    var v := s.node.parked[k][h];
    assert HashOf(env, v) == h && v.meta.prev == k;
    InsideIs(env, root, all, v);
  }

  lemma {:induction false} AllStored(env: Env, root: BlockVal, all: map<Hash, BlockVal>, s: Sync, h: Hash)
    requires Ideal(env) && Closed(env, root, all) && SyncInv(env, root, all, s) && s.tasks == multiset{}
    requires forall x :: x in all ==> Held(env, s, x)
    requires h in all
    ensures h in s.node.blocks
    decreases env.age(h)
  {
    hide Ideal;
    hide Closed;
    hide SyncInv;
    hide Held;
    if h !in s.node.blocks {
      HeldOrMissing(env, root, all, s, h);
      AllStored(env, root, all, s, all[h].meta.prev);
    }
  }

  lemma {:induction false} NothingParked(env: Env, root: BlockVal, all: map<Hash, BlockVal>, genesis: Hash, first: Hash, s: Sync, k: Hash)
    requires Ideal(env) && Closed(env, root, all) && SyncInv(env, root, all, s) && Quiet(s)
    requires LogInv(env, all, genesis, first, s) && k in all
    ensures k !in s.node.parked
    decreases env.age(k)
  {
    hide Ideal;
    hide Closed;
    hide Held;
    hide NodeInv;
    if k in s.node.parked {
      WaitersAreNamed(env, s.node);
      hide SyncInv;
      HeldOrMissing(env, root, all, s, k);
      NothingParked(env, root, all, genesis, first, s, all[k].meta.prev);
    }
  }

  /** A node that stores all of the set stores exactly the set, ledgers included, and nothing waits. */
  lemma FullStoreIsSet(env: Env, root: BlockVal, all: map<Hash, BlockVal>, s: Sync)
    requires SyncInv(env, root, all, s)
    requires forall h :: h in all ==> h in s.node.blocks
    ensures s.node.blocks == all && s.node.parked == map[]
    ensures HighestTip(env, all, s.node.last)
  {
    hide TreeInv;
    hide WaitsFor;
    hide ConfirmedOf;
    hide Inside;
    hide HashOf;
    forall k ensures k !in s.node.parked {
      assert k in s.node.parked ==> k in all;
    }
  }

  /** The tip is a block of the set, and none is higher. */
  ghost predicate HighestTip(env: Env, all: map<Hash, BlockVal>, last: BlockVal) {
    && HashOf(env, last) in all && all[HashOf(env, last)] == last
    && forall h :: h in all ==> all[h].meta.height <= last.meta.height
  }

  // ---------------------------------------------------------------- whole runs

  ghost predicate Behavior(env: Env, kept: set<Hash>, ss: seq<Sync>) {
    |ss| > 0 && forall i :: 0 <= i < |ss| - 1 ==> Step(env, kept, ss[i], ss[i + 1])
  }

  /** A node that stores the root only and to which the given blocks are being delivered. */
  ghost predicate Start(env: Env, root: BlockVal, s: Sync) {
    && s.node == Fresh(env, s.node.address, s.node.key, s.node.config, root)
    && s.requests == multiset{} && s.asked == []
  }

  lemma StartInv(env: Env, root: BlockVal, all: map<Hash, BlockVal>, s: Sync)
    requires Ideal(env) && Closed(env, root, all) && Start(env, root, s)
    requires forall b :: b in s.tasks ==> Inside(env, all, b)
    ensures SyncInv(env, root, all, s)
  {
    hide NodeInv;
    hide Link;
    hide HasValidProof;
    hide Inside;
    FreshInv(env, s.node.address, s.node.key, s.node.config, root);
    RootIsOf(env, root, all);
    hide HashOf;
  }

  lemma RootIsOf(env: Env, root: BlockVal, all: map<Hash, BlockVal>)
    requires Ideal(env) && Closed(env, root, all)
    ensures HashOf(env, root) in all && all[HashOf(env, root)] == root
  {
    hide Link;
    hide HasValidProof;
    SameHash(env, all[HashOf(env, root)], root);
  }

  lemma {:induction false} BehaviorKeeps(env: Env, root: BlockVal, all: map<Hash, BlockVal>, kept: set<Hash>, ss: seq<Sync>, i: nat)
    requires Ideal(env) && Closed(env, root, all)
    requires Behavior(env, kept, ss) && SyncInv(env, root, all, ss[0]) && i < |ss|
    ensures SyncInv(env, root, all, ss[i])
    ensures forall h :: Held(env, ss[0], h) ==> Held(env, ss[i], h)
  {
    hide Ideal;
    hide Closed;
    hide SyncInv;
    hide Held;
    hide Step;
    if i > 0 {
      BehaviorKeeps(env, root, all, kept, ss, i - 1);
      assert Step(env, kept, ss[i - 1], ss[i]);
      StepKeeps(env, root, all, kept, ss[i - 1], ss[i]);
    }
  }

  /** Delivery order does not matter. Deliver every block of a parent-closed set of valid blocks, in any
      order, with any repetitions and any ledgers: once no call is left to run, the node stores exactly that
      set with the same ledgers, nothing waits, and the tip is a highest block of the set. */
  lemma DeliveryConverges(env: Env, root: BlockVal, all: map<Hash, BlockVal>, kept: set<Hash>, ss: seq<Sync>)
    requires Ideal(env) && Closed(env, root, all)
    requires Behavior(env, kept, ss) && Start(env, root, ss[0])
    requires forall b :: b in ss[0].tasks ==> Inside(env, all, b)
    requires forall h :: h in all ==> h == HashOf(env, root) || Queued(env, ss[0], h)
    requires ss[|ss| - 1].tasks == multiset{}
    ensures var n := ss[|ss| - 1].node;
            n.blocks == all && n.parked == map[] && HighestTip(env, all, n.last)
  {
    hide Ideal;
    hide Closed;
    hide SyncInv;
    hide Step;
    hide HashOf;
    var t := ss[|ss| - 1];
    StartInv(env, root, all, ss[0]);
    BehaviorKeeps(env, root, all, kept, ss, |ss| - 1);
    forall h | h in all ensures Held(env, t, h) { assert Held(env, ss[0], h); }
    hide Held;
    forall h | h in all ensures h in t.node.blocks { AllStored(env, root, all, t, h); }
    FullStoreIsSet(env, root, all, t);
  }

  /** The set has one root for a reason: two blocks of height 0 with one hash and different ledgers are
      stored as they come, so that the order of delivery decides which of them a node keeps. */
  lemma RootOrderMatters(env: Env, n: NodeVal, m: Meta)
    requires m.height == 0
    ensures var p, q := BlockVal(m, Book([], [], [])), BlockVal(m, Book([], [Entry("a", 1)], []));
            HashOf(env, p) !in n.blocks ==>
              Receive(env, Receive(env, n, p).0, q).0.blocks != Receive(env, Receive(env, n, q).0, p).0.blocks
  {
    var p, q := BlockVal(m, Book([], [], [])), BlockVal(m, Book([], [Entry("a", 1)], []));
    var h := HashOf(env, p);
    assert HashOf(env, q) == h && p.book.balances != q.book.balances;
    hide HashOf;
    hide ConfirmedOf;
    hide Contains;
    if h !in n.blocks {
      assert Receive(env, Receive(env, n, p).0, q).0.blocks[h] == p;
      assert Receive(env, Receive(env, n, q).0, p).0.blocks[h] == q;
    }
  }

  // ---------------------------------------------------------------- a late joiner

  lemma ParentIsOlder(env: Env, root: BlockVal, all: map<Hash, BlockVal>, h: Hash)
    requires Ideal(env) && Closed(env, root, all) && h in all && all[h].meta.height > 0
    ensures all[h].meta.prev in all && env.age(all[h].meta.prev) < env.age(h)
  {
    IsYounger(env, all[h]);
  }

  /** The chain from the root to the block with hash h. */
  ghost function Lineage(env: Env, root: BlockVal, all: map<Hash, BlockVal>, h: Hash): map<Hash, BlockVal>
    requires Ideal(env) && Closed(env, root, all) && h in all
    decreases env.age(h)
  {
    if all[h].meta.height == 0 then map[h := all[h]]
    else ParentIsOlder(env, root, all, h); Lineage(env, root, all, all[h].meta.prev)[h := all[h]]
  }

  /** l is a part of the set with h as its youngest block, parents included. */
  ghost predicate ChainOf(env: Env, all: map<Hash, BlockVal>, genesis: Hash, h: Hash, l: map<Hash, BlockVal>) {
    && h in all && h in l && genesis in l
    && Extends(l, all)
    && (forall x :: x in l ==> x == h || env.age(x) < env.age(h))
    && (forall x :: x in l && l[x].meta.height > 0 ==> l[x].meta.prev in l)
  }

  lemma ChainOfGrows(env: Env, all: map<Hash, BlockVal>, genesis: Hash, k: Hash, h: Hash, l: map<Hash, BlockVal>)
    requires ChainOf(env, all, genesis, k, l) && h in all
    requires all[h].meta.prev == k && env.age(k) < env.age(h)
    ensures ChainOf(env, all, genesis, h, l[h := all[h]]) && h !in l
  {
  }

  lemma RootIsChain(env: Env, root: BlockVal, all: map<Hash, BlockVal>, h: Hash)
    requires Closed(env, root, all) && h in all && all[h].meta.height == 0
    ensures ChainOf(env, all, HashOf(env, root), h, map[h := all[h]])
  {
    hide Link;
    hide HasValidProof;
    assert all[h] == root;
  }

  lemma {:induction false} LineageIs(env: Env, root: BlockVal, all: map<Hash, BlockVal>, h: Hash)
    requires Ideal(env) && Closed(env, root, all) && h in all
    ensures ChainOf(env, all, HashOf(env, root), h, Lineage(env, root, all, h))
    decreases env.age(h)
  {
    hide Ideal;
    hide Closed;
    hide ChainOf;
    hide HashOf;
    if all[h].meta.height == 0 {
      RootIsChain(env, root, all, h);
    } else {
      ParentIsOlder(env, root, all, h);
      LineageIs(env, root, all, all[h].meta.prev);
      ChainOfGrows(env, all, HashOf(env, root), all[h].meta.prev, h, Lineage(env, root, all, all[h].meta.prev));
    }
  }

  lemma LineageIsClosed(env: Env, root: BlockVal, all: map<Hash, BlockVal>, h: Hash)
    requires Ideal(env) && Closed(env, root, all) && h in all
    ensures Closed(env, root, Lineage(env, root, all, h))
  {
    hide Link;
    hide HasValidProof;
    LineageIs(env, root, all, h);
    hide Lineage;
  }

  lemma LineageEndsAt(env: Env, root: BlockVal, all: map<Hash, BlockVal>, h: Hash)
    requires Ideal(env) && Closed(env, root, all) && h in all
    ensures Topmost(Lineage(env, root, all, h), h)
  {
    hide Link;
    hide HasValidProof;
    hide Ideal;
    LineageIs(env, root, all, h);
    var l := Lineage(env, root, all, h);
    hide Lineage;
    hide Closed;
    forall x | x in l && l[x].meta.height > 0 ensures l[x].meta.prev != h {
      ParentIsOlder(env, root, all, x);
    }
  }

  lemma {:induction false} NoRepeatsSize(hs: seq<Hash>)
    requires NoRepeats(hs)
    ensures |(set h | h in hs)| == |hs|
  {
    if hs != [] {
      var rest := hs[..|hs| - 1];
      NoRepeatsSize(rest);
      assert (set h | h in hs) == (set h | h in rest) + {hs[|hs| - 1]};
    }
  }

  lemma {:induction false} BehaviorLogs(env: Env, root: BlockVal, all: map<Hash, BlockVal>, kept: set<Hash>,
                                        genesis: Hash, first: Hash, ss: seq<Sync>, i: nat)
    requires Ideal(env) && Closed(env, root, all) && all.Keys <= kept && Topmost(all, first)
    requires Behavior(env, kept, ss) && SyncInv(env, root, all, ss[0]) && i < |ss|
    requires LogInv(env, all, genesis, first, ss[0])
    ensures LogInv(env, all, genesis, first, ss[i])
  {
    hide Ideal;
    hide Closed;
    hide SyncInv;
    hide Step;
    hide LogInv;
    hide Topmost;
    if i > 0 {
      BehaviorLogs(env, root, all, kept, genesis, first, ss, i - 1);
      BehaviorKeeps(env, root, all, kept, ss, i - 1);
      assert Step(env, kept, ss[i - 1], ss[i]);
      StepKeepsLog(env, root, all, kept, genesis, first, ss[i - 1], ss[i]);
    }
  }

  lemma StartLogs(env: Env, root: BlockVal, all: map<Hash, BlockVal>, first: Hash, s: Sync, b: BlockVal)
    requires Start(env, root, s) && s.peers > 0 && s.tasks == multiset{b} && HashOf(env, b) == first
    ensures LogInv(env, all, HashOf(env, root), first, s) && Held(env, s, first)
  {
    hide HashOf;
    assert b in s.tasks;
    assert Queued(env, s, first);
  }

  ghost predicate HasChild(env: Env, all: map<Hash, BlockVal>, first: Hash, x: Hash) {
    exists y :: y in all && all[y].meta.height > 0 && all[y].meta.prev == x && env.age(x) < env.age(y) <= env.age(first)
  }

  /** Every block of the set but the first is the parent of another. */
  ghost predicate Spine(env: Env, all: map<Hash, BlockVal>, first: Hash) {
    forall x :: x in all && x != first ==> HasChild(env, all, first, x)
  }

  /** Once nothing is left to do, everything asked for or delivered is stored, and nothing else. */
  lemma RestIsFull(env: Env, root: BlockVal, all: map<Hash, BlockVal>, first: Hash, s: Sync)
    requires Ideal(env) && Closed(env, root, all) && SyncInv(env, root, all, s) && Quiet(s)
    requires first in all && LogInv(env, all, HashOf(env, root), first, s) && Held(env, s, first)
    requires Spine(env, all, first)
    ensures forall h :: h in all ==> h in s.node.blocks
  {
    hide Ideal;
    hide Closed;
    hide Held;
    hide LogInv;
    hide HashOf;
    hide Spine;
    hide SyncInv;
    forall k | k in all ensures k !in s.node.parked { NothingParked(env, root, all, HashOf(env, root), first, s, k); }
    forall h | h in all ensures h in s.node.blocks {
      AncestorsStored(env, root, all, first, s, h);
    }
  }

  lemma {:induction false} AncestorsStored(env: Env, root: BlockVal, all: map<Hash, BlockVal>, first: Hash, s: Sync, h: Hash)
    requires Ideal(env) && Closed(env, root, all) && SyncInv(env, root, all, s) && Quiet(s)
    requires Held(env, s, first) && first in all && h in all
    requires forall k :: k in all ==> k !in s.node.parked
    requires Spine(env, all, first)
    ensures h in s.node.blocks
    decreases if env.age(h) <= env.age(first) then env.age(first) - env.age(h) else 0
  {
    hide Ideal;
    hide Closed;
    hide SyncInv;
    hide Held;
    hide HashOf;
    if h == first {
      if h !in s.node.blocks { HeldOrMissing(env, root, all, s, h); }
    } else {
      var y :| y in all && all[y].meta.height > 0 && all[y].meta.prev == h && env.age(h) < env.age(y) <= env.age(first);
      AncestorsStored(env, root, all, first, s, y);
      StoredParent(env, root, all, s, y);
    }
  }

  lemma StoredParent(env: Env, root: BlockVal, all: map<Hash, BlockVal>, s: Sync, y: Hash)
    requires SyncInv(env, root, all, s) && y in all && y in s.node.blocks && all[y].meta.height > 0
    ensures all[y].meta.prev in s.node.blocks
  {
    hide Link;
    hide Rooted;
    hide ParkedInv;
    hide TipInv;
    assert s.node.blocks[y] == all[y];
  }

  lemma {:induction false} LineageHasChildren(env: Env, root: BlockVal, all: map<Hash, BlockVal>, h: Hash, x: Hash)
    requires Ideal(env) && Closed(env, root, all) && h in all && x in Lineage(env, root, all, h) && x != h
    ensures HasChild(env, Lineage(env, root, all, h), h, x)
    decreases env.age(h)
  {
    hide Ideal;
    hide Closed;
    ParentIsOlder(env, root, all, h);
    var k := all[h].meta.prev;
    var l := Lineage(env, root, all, h);
    LineageIs(env, root, all, h);
    if x != k {
      LineageHasChildren(env, root, all, k, x);
      LineageIs(env, root, all, k);
      var m := Lineage(env, root, all, k);
      var y :| y in m && m[y].meta.height > 0 && m[y].meta.prev == x && env.age(x) < env.age(y) <= env.age(k);
      assert y in l && l[y] == m[y];
    } else {
      assert l[h].meta.prev == x;
    }
  }

  lemma BehaviorBelow(env: Env, kept: set<Hash>, fewer: set<Hash>, ss: seq<Sync>)
    requires Behavior(env, kept, ss) && fewer <= kept
    ensures Behavior(env, fewer, ss)
  {
    hide RunTask;
    hide HashOf;
    forall i | 0 <= i < |ss| - 1 ensures Step(env, fewer, ss[i], ss[i + 1]) {
      var s, t := ss[i], ss[i + 1];
      assert Step(env, kept, s, t);
      if q, reply :| q in s.requests && Replies(env, kept, q, reply) && t == Answer(s, q, reply) {
        assert Replies(env, fewer, q, reply);
      }
    }
  }

  /** A node that knows the root only and hears of one block ends up with exactly the chain below that block,
      if one peer stores the chain, whatever the others store and in whatever order the peers answer: nothing
      waits, the tip is a highest block of the chain, and the node has asked once for each block strictly in
      between. */
  lemma JoinerCatchesUp(env: Env, root: BlockVal, all: map<Hash, BlockVal>, b: BlockVal, ss: seq<Sync>)
    requires Ideal(env) && Closed(env, root, all) && Inside(env, all, b) && b.meta.height > 0
    requires Behavior(env, all.Keys, ss) && Start(env, root, ss[0]) && ss[0].peers > 0 && ss[0].tasks == multiset{b}
    requires Quiet(ss[|ss| - 1])
    ensures var t := ss[|ss| - 1];
            var chain := Lineage(env, root, all, HashOf(env, b));
            && t.node.blocks == chain && t.node.parked == map[] && HighestTip(env, chain, t.node.last)
            && NoRepeats(t.asked) && (set h | h in t.asked) == chain.Keys - {HashOf(env, root), HashOf(env, b)}
            && |t.asked| == |chain| - 2
  {
    hide Ideal;
    hide Step;
    hide Start;
    hide Quiet;
    hide NoRepeats;
    hide Closed;
    hide HashOf;
    hide HighestTip;
    InsideIs(env, root, all, b);
    var first := HashOf(env, b);
    var chain := Lineage(env, root, all, first);
    LineageIs(env, root, all, first);
    LineageIsClosed(env, root, all, first);
    LineageEndsAt(env, root, all, first);
    forall x | x in chain && x != first ensures HasChild(env, chain, first, x) {
      LineageHasChildren(env, root, all, first, x);
    }
    hide Lineage;
    hide HasChild;
    BehaviorBelow(env, all.Keys, chain.Keys, ss);
    RootIsNot(env, root, all, first);
    JoinerRests(env, root, chain, b, ss);
    CaughtUp(env, root, chain, first, ss[|ss| - 1]);
  }

  lemma RootIsNot(env: Env, root: BlockVal, all: map<Hash, BlockVal>, h: Hash)
    requires Ideal(env) && Closed(env, root, all) && h in all && all[h].meta.height > 0
    ensures HashOf(env, root) != h
  {
    hide Link;
    RootIsOf(env, root, all);
  }

  lemma JoinerRests(env: Env, root: BlockVal, chain: map<Hash, BlockVal>, b: BlockVal, ss: seq<Sync>)
    requires Ideal(env) && Closed(env, root, chain)
    requires Inside(env, chain, b) && Topmost(chain, HashOf(env, b)) && Spine(env, chain, HashOf(env, b))
    requires Behavior(env, chain.Keys, ss) && Start(env, root, ss[0]) && ss[0].peers > 0 && ss[0].tasks == multiset{b}
    requires Quiet(ss[|ss| - 1])
    ensures var t := ss[|ss| - 1];
            && LogInv(env, chain, HashOf(env, root), HashOf(env, b), t)
            && t.node.blocks == chain && t.node.parked == map[] && HighestTip(env, chain, t.node.last)
  {
    var first, genesis, t := HashOf(env, b), HashOf(env, root), ss[|ss| - 1];
    StartInv(env, root, chain, ss[0]);
    StartLogs(env, root, chain, first, ss[0], b);
    hide Inside;
    hide Ideal;
    hide Closed;
    hide SyncInv;
    hide LogInv;
    hide Start;
    hide Step;
    hide HashOf;
    hide Held;
    hide Spine;
    hide Topmost;
    hide Quiet;
    hide HighestTip;
    BehaviorKeeps(env, root, chain, chain.Keys, ss, |ss| - 1);
    BehaviorLogs(env, root, chain, chain.Keys, genesis, first, ss, |ss| - 1);
    RestIsFull(env, root, chain, first, t);
    FullStoreIsSet(env, root, chain, t);
  }

  lemma CaughtUp(env: Env, root: BlockVal, chain: map<Hash, BlockVal>, first: Hash, t: Sync)
    requires LogInv(env, chain, HashOf(env, root), first, t) && t.node.blocks == chain
    requires HashOf(env, root) in chain && first in chain && HashOf(env, root) != first
    ensures NoRepeats(t.asked) && (set h | h in t.asked) == chain.Keys - {HashOf(env, root), first}
    ensures |t.asked| == |chain| - 2
  {
    NoRepeatsSize(t.asked);
    AskedAre(env, chain, HashOf(env, root), first, t);
    TwoFewer(chain.Keys, HashOf(env, root), first);
  }

  lemma AskedAre(env: Env, chain: map<Hash, BlockVal>, genesis: Hash, first: Hash, t: Sync)
    requires LogInv(env, chain, genesis, first, t) && t.node.blocks == chain
    ensures (set h | h in t.asked) == chain.Keys - {genesis, first}
  {
    forall h | h in chain ensures Held(env, t, h) { }
    hide Held;
    hide NoRepeats;
  }

  lemma TwoFewer<T>(s: set<T>, a: T, b: T)
    requires a in s && b in s && a != b
    ensures |s - {a, b}| == |s| - 2
  {
    assert s - {a, b} == (s - {a}) - {b};
  }

  // ---------------------------------------------------------------- the honest case

  /** A parent-closed set of honest blocks with the genesis. */
  ghost predicate AllGood(env: Env, w: World, all: map<Hash, BlockVal>) {
    && HashOf(env, w.genesis) in all
    && (forall h :: h in all ==> HashOf(env, all[h]) == h && Good(env, w, all[h]))
    && (forall h :: h in all && all[h].meta.height > 0 ==> all[h].meta.prev in all)
  }

  lemma GoodParentIsOf(env: Env, w: World, all: map<Hash, BlockVal>, h: Hash)
    requires Lawful(env, w) && AllGood(env, w, all) && h in all && all[h].meta.height > 0
    ensures all[h].meta.prev in all && GoodLink(env, w, all[all[h].meta.prev], all[h])
  {
    hide Link;
    hide HasValidProof;
    var p := GoodParent(env, w, all[h]);
    LinkNames(env, p, all[h]);
    IdealOf(env, w);
    GoodUnique(env, w, p, all[all[h].meta.prev]);
  }

  /** Such a set is one over which nodes converge and catch up. */
  lemma HonestSetIsClosed(env: Env, w: World, all: map<Hash, BlockVal>)
    requires Lawful(env, w) && AllGood(env, w, all)
    ensures Closed(env, w.genesis, all)
  {
    hide Link;
    hide HasValidProof;
    forall h | h in all && all[h].meta.height > 0
      ensures HasValidProof(env, all[h]) && Link(env, all[all[h].meta.prev], all[h])
    {
      GoodParentIsOf(env, w, all, h);
    }
  }

  /** Honest heights are positions. */
  lemma {:induction false} HonestLineage(env: Env, w: World, all: map<Hash, BlockVal>, h: Hash)
    requires Lawful(env, w) && AllGood(env, w, all) && h in all && Ideal(env) && Closed(env, w.genesis, all)
    ensures var l := Lineage(env, w.genesis, all, h);
            && |l| == all[h].meta.height as nat + 1
            && forall x :: x in l ==> l[x].meta.height < all[h].meta.height || (x == h && l[x] == all[h])
    decreases env.age(h)
  {
    hide Lawful;
    hide AllGood;
    hide Closed;
    hide Ideal;
    if all[h].meta.height > 0 {
      var k := all[h].meta.prev;
      GoodParentIsOf(env, w, all, h);
      ParentIsOlder(env, w.genesis, all, h);
      HonestLineage(env, w, all, k);
      LineageIs(env, w.genesis, all, k);
      var m := Lineage(env, w.genesis, all, k);
      var l := Lineage(env, w.genesis, all, h);
      assert h !in m;
      assert l.Keys == m.Keys + {h};
      assert |l| == |m| + 1;
    }
  }

  /** In an honest run the block heard of becomes the tip, after height - 1 requests. */
  lemma LateJoinerCatchesUp(env: Env, w: World, all: map<Hash, BlockVal>, b: BlockVal, ss: seq<Sync>)
    requires Lawful(env, w) && AllGood(env, w, all) && Inside(env, all, b) && b.meta.height > 0
    requires Behavior(env, all.Keys, ss) && Start(env, w.genesis, ss[0]) && ss[0].peers > 0 && ss[0].tasks == multiset{b}
    requires Quiet(ss[|ss| - 1])
    ensures var t := ss[|ss| - 1];
            && Ideal(env) && Closed(env, w.genesis, all)
            && t.node.blocks == Lineage(env, w.genesis, all, HashOf(env, b)) && t.node.parked == map[]
            && t.node.last == all[HashOf(env, b)]
            && NoRepeats(t.asked) && |t.asked| == b.meta.height as int - 1
  {
    hide Lawful;
    hide AllGood;
    hide Behavior;
    hide Start;
    hide Quiet;
    hide NoRepeats;
    hide Closed;
    hide Ideal;
    hide HashOf;
    hide Lineage;
    IdealOf(env, w);
    HonestSetIsClosed(env, w, all);
    InsideIs(env, w.genesis, all, b);
    JoinerCatchesUp(env, w.genesis, all, b, ss);
    HonestLineage(env, w, all, HashOf(env, b));
    LineageIs(env, w.genesis, all, HashOf(env, b));
  }
}
