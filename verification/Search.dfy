/** The proof search as a node runs it: what one call of FindProof does, and what many calls do. */
module Searching {
  import opened Prelude
  import opened Ledger
  import opened Chains
  import opened Store
  import opened Honest
  import opened Mining
  import opened Forks
  import opened Wallet
  import opened Network

  /** The hash of the block under the given proof lies below its target. */
  ghost predicate Solves(env: Env, b: BlockVal, p: u32) {
    env.magnitude(env.blockHash(Header(b.meta.(proof := p), b.book.txs))) < b.meta.target
  }

  lemma SolvesIs(env: Env, b: BlockVal, p: u32)
    ensures Solves(env, b, p) <==> HasValidProof(env, WithProof(b, p))
  {
  }

  /** One call: every proof it passes is invalid; if it announces, the proof it stops at is valid; and if not, it
      has come exactly to the pause point, or has not moved because the pause point wrapped. */
  lemma FindProofSearches(env: Env, n: NodeVal, rounds: u32)
    requires n.current.Some?
    ensures var c, (m, found) := n.current.value, FindProof(env, n, rounds);
            var pause := (c.meta.proof + rounds) % 0x1_0000_0000;
            && m.current.Some? && m == n.(current := m.current)
            && var q := m.current.value.meta.proof;
               && m.current.value == c.(meta := c.meta.(proof := q))
               && c.meta.proof <= q
               && (forall i: u32 :: c.meta.proof <= i < q ==> !Solves(env, c, i))
               && (found ==> q < pause && Solves(env, c, q))
               && (!found ==> q == if c.meta.proof < pause then pause else c.meta.proof)
  {
    hide HasValidProof;
    hide Solves;
    var c := n.current.value;
    var (m, found) := FindProof(env, n, rounds);
    var q := m.current.value.meta.proof;
    forall i: u32 ensures Solves(env, c, i) <==> HasValidProof(env, WithProof(c, i)) { SolvesIs(env, c, i); }
  }

  // ---------------------------------------------------------------- many calls

  /** The node after k calls. */
  ghost function Mined(env: Env, n: NodeVal, rounds: u32, k: nat): (m: NodeVal)
    requires n.current.Some?
    ensures m.current.Some?
  {
    if k == 0 then n else FindProof(env, Mined(env, n, rounds, k - 1), rounds).0
  }

  /** A call on a block that has come to proof p. */
  lemma CallIs(env: Env, n: NodeVal, c: BlockVal, p: u32, rounds: u32)
    requires n.current == Some(WithProof(c, p))
    ensures var q := Scan(env, c, p, Wrap(p + rounds));
            FindProof(env, n, rounds) == (n.(current := Some(WithProof(c, q))), q < Wrap(p + rounds))
  {
    hide Scan;
    ScanIgnoresProof(env, c, p, p, Wrap(p + rounds));
  }

  lemma SearchedStep(env: Env, c: BlockVal, rounds: u32, k: nat)
    ensures SearchedTo(env, c, rounds, k + 1)
            == Scan(env, c, SearchedTo(env, c, rounds, k), Wrap(SearchedTo(env, c, rounds, k) + rounds))
    ensures SearchedTo(env, c, rounds, 0) == 0
  {
    hide Scan;
  }

  /** The calls of the program are the calls that the laws of the search are about. */
  lemma {:induction false} MinedIs(env: Env, n: NodeVal, rounds: u32, k: nat)
    requires n.current.Some? && n.current.value.meta.proof == 0
    ensures var c := n.current.value;
            && Mined(env, n, rounds, k) == n.(current := Some(WithProof(c, SearchedTo(env, c, rounds, k))))
            && (FindProof(env, Mined(env, n, rounds, k), rounds).1 <==> Announces(env, c, rounds, k))
  {
    hide FindProof;
    hide Scan;
    hide Wrap;
    hide SearchedTo;
    var c := n.current.value;
    SearchedStep(env, c, rounds, k);
    if k > 0 {
      MinedIs(env, n, rounds, k - 1);
      SearchedStep(env, c, rounds, k - 1);
      CallIs(env, Mined(env, n, rounds, k - 1), c, SearchedTo(env, c, rounds, k - 1), rounds);
    }
    CallIs(env, Mined(env, n, rounds, k), c, SearchedTo(env, c, rounds, k), rounds);
  }

  lemma {:induction false} ScanIgnoresProof(env: Env, c: BlockVal, p: u32, q: u32, pause: u32)
    ensures Scan(env, WithProof(c, p), q, pause) == Scan(env, c, q, pause)
    decreases pause - q
  {
    hide HasValidProof;
    assert WithProof(WithProof(c, p), q) == WithProof(c, q);
    if q < pause && !HasValidProof(env, WithProof(c, q)) { ScanIgnoresProof(env, c, p, q + 1, pause); }
  }

  /** The node's search stands at the least valid proof, or has ruled out everything below k times the rounds, up
      to the greatest multiple that fits in 32 bits. */
  lemma MinedIsExhaustive(env: Env, n: NodeVal, rounds: u32, k: nat)
    requires n.current.Some? && n.current.value.meta.proof == 0 && rounds > 0
    ensures var c, q := n.current.value, Mined(env, n, rounds, k).current.value.meta.proof;
            var full := 0xFFFF_FFFF / rounds;
            && (forall i: u32 :: i < q ==> !Solves(env, c, i))
            && (Solves(env, c, q) || q == (if k <= full then k else full) * rounds)
  {
    hide HasValidProof;
    hide Solves;
    hide SearchedTo;
    hide Announces;
    hide Reach;
    hide FindProof;
    hide Mined;
    var c := n.current.value;
    MinedIs(env, n, rounds, k);
    SearchIsExhaustive(env, c, rounds, k);
    FullIs(rounds);
    ReachIs(rounds, k, 0xFFFF_FFFF / rounds);
    forall i: u32 ensures Solves(env, c, i) <==> HasValidProof(env, WithProof(c, i)) { SolvesIs(env, c, i); }
  }

  /** The node announces a proof at some call exactly when a valid one lies below that multiple. */
  lemma MiningSucceedsIff(env: Env, n: NodeVal, rounds: u32)
    requires n.current.Some? && n.current.value.meta.proof == 0 && rounds > 0
    ensures (exists k: nat :: FindProof(env, Mined(env, n, rounds, k), rounds).1)
            <==> (exists p: u32 :: p < 0xFFFF_FFFF / rounds * rounds && Solves(env, n.current.value, p))
  {
    hide HasValidProof;
    hide Solves;
    hide FindProof;
    hide Mined;
    hide Announces;
    var c := n.current.value;
    SearchSucceedsIff(env, c, rounds);
    if k: nat :| FindProof(env, Mined(env, n, rounds, k), rounds).1 {
      MinedIs(env, n, rounds, k);
      var p: u32 :| p < 0xFFFF_FFFF / rounds * rounds && HasValidProof(env, WithProof(c, p));
      SolvesIs(env, c, p);
    }
    if p: u32 :| p < 0xFFFF_FFFF / rounds * rounds && Solves(env, c, p) {
      SolvesIs(env, c, p);
      var k: nat :| Announces(env, c, rounds, k);
      MinedIs(env, n, rounds, k);
    }
  }

  // ---------------------------------------------------------------- in a run of the network

  /** How many of the events are calls of FindProof at the node. */
  function CallsAt(es: seq<Event>, at: Address): nat {
    if es == [] then 0
    else CallsAt(es[..|es| - 1], at) + if es[|es| - 1].Mine? && es[|es| - 1].at == at then 1 else 0
  }

  /** Between i and j the node searches with these rounds, and no other event touches its block. */
  ghost predicate OnlySearches(ss: seq<Net>, es: seq<Event>, i: nat, j: nat, at: Address, rounds: u32)
    requires i <= j < |ss| && |es| + 1 == |ss|
  {
    && (forall t :: i <= t <= j ==> at in ss[t].nodes)
    && (forall t :: i <= t < j && es[t].Mine? && es[t].at == at ==> es[t].rounds == rounds)
    && (forall t :: i <= t < j && !(es[t].Mine? && es[t].at == at) ==> ss[t + 1].nodes[at].current == ss[t].nodes[at].current)
  }

  lemma OnlySearchesStep(ss: seq<Net>, es: seq<Event>, i: nat, j: nat, at: Address, rounds: u32)
    requires i < j < |ss| && |es| + 1 == |ss| && OnlySearches(ss, es, i, j, at, rounds)
    ensures OnlySearches(ss, es, i, j - 1, at, rounds)
    ensures at in ss[i].nodes && at in ss[j - 1].nodes && at in ss[j].nodes
    ensures if es[j - 1].Mine? && es[j - 1].at == at then es[j - 1].rounds == rounds
            else ss[j].nodes[at].current == ss[j - 1].nodes[at].current
  {
  }

  lemma IsThere(ss: seq<Net>, es: seq<Event>, i: nat, j: nat, at: Address, rounds: u32)
    requires i <= j < |ss| && |es| + 1 == |ss| && OnlySearches(ss, es, i, j, at, rounds)
    ensures at in ss[i].nodes && at in ss[j].nodes
  {
  }

  /** In every run, whatever else happens in between, the search of a node on one block goes on as if its calls
      were made one after the other. */
  lemma {:induction false} SearchInRun(env: Env, w: World, ss: seq<Net>, es: seq<Event>, i: nat, j: nat, at: Address, rounds: u32)
    requires NetRun(env, w, ss, es) && i <= j < |ss| && OnlySearches(ss, es, i, j, at, rounds)
    requires ss[i].nodes[at].current.Some?
    ensures ss[j].nodes[at].current == Mined(env, ss[i].nodes[at], rounds, CallsAt(es[i..j], at)).current
    decreases j
  {
    hide OnlySearches;
    hide FindProof;
    hide Mined;
    hide Perform;
    hide Enabled;
    IsThere(ss, es, i, j, at, rounds);
    var n := ss[i].nodes[at];
    if i < j {
      OnlySearchesStep(ss, es, i, j, at, rounds);
      assert es[i..j][..j - 1 - i] == es[i..j - 1] && es[i..j][j - 1 - i] == es[j - 1];
      SearchInRun(env, w, ss, es, i, j - 1, at, rounds);
      var k := CallsAt(es[i..j - 1], at);
      if es[j - 1].Mine? && es[j - 1].at == at {
        CallLooksAtBlock(env, ss[j - 1].nodes[at], Mined(env, n, rounds, k), rounds);
        MineIsCall(env, w, ss, es, j - 1, at);
        MinedStep(env, n, rounds, k);
      }
    } else {
      assert es[i..j] == [];
      MinedNone(env, n, rounds);
    }
  }

  lemma MinedNone(env: Env, n: NodeVal, rounds: u32)
    requires n.current.Some?
    ensures Mined(env, n, rounds, 0) == n
  {
  }

  lemma CallLooksAtBlock(env: Env, m: NodeVal, n: NodeVal, rounds: u32)
    requires m.current.Some? && m.current == n.current
    ensures FindProof(env, m, rounds).0.current == FindProof(env, n, rounds).0.current
    ensures FindProof(env, m, rounds).1 == FindProof(env, n, rounds).1
  {
    hide Scan;
  }

  lemma MinedStep(env: Env, n: NodeVal, rounds: u32, k: nat)
    requires n.current.Some?
    ensures Mined(env, n, rounds, k + 1) == FindProof(env, Mined(env, n, rounds, k), rounds).0
  {
  }

  /** A Mine event is one call. */
  lemma MineEventIs(env: Env, w: World, s: Net, e: Event)
    requires e.Mine? && Enabled(env, w, s, e)
    ensures e.at in s.nodes && s.nodes[e.at].current.Some?
    ensures var (m, found) := FindProof(env, s.nodes[e.at], e.rounds);
            && m.current.Some? && Perform(env, w, s, e).nodes == s.nodes[e.at := m]
            && Perform(env, w, s, e).msgs
               == s.msgs + if found then Announcement(s.nodes.Keys, e.at, m.current.value) else multiset{}
  {
    hide Scan;
    hide Announcement;
  }

  /** A call that finds a proof sends one delivery to every node and makes one more call at the miner itself; a
      call that finds none sends nothing. */
  lemma FindingSends(env: Env, w: World, s: Net, e: Event, x: Msg)
    requires e.Mine? && Enabled(env, w, s, e)
    ensures var (m, found) := FindProof(env, s.nodes[e.at], e.rounds);
            && m.current.Some?
            && var sent := found && x.payload == ProofFound(m.current.value);
               Perform(env, w, s, e).msgs[x] == s.msgs[x]
                 + (if sent && x.to in s.nodes then 1 else 0)
                 + (if sent && x.to == e.at then 1 else 0)
  {
    hide FindProof;
    hide Perform;
    hide Announcement;
    MineEventIs(env, w, s, e);
    AnnouncementCounts(s.nodes.Keys, e.at, FindProof(env, s.nodes[e.at], e.rounds).0.current.value, x);
  }

  lemma AnnouncementCounts(all: set<Address>, at: Address, b: BlockVal, x: Msg)
    ensures Announcement(all, at, b)[x]
            == (if x.payload == ProofFound(b) && x.to in all then 1 else 0)
               + (if x.payload == ProofFound(b) && x.to == at then 1 else 0)
  {
    assert x == Msg(x.to, x.payload);
  }

  lemma MineIsCall(env: Env, w: World, ss: seq<Net>, es: seq<Event>, t: nat, at: Address)
    requires NetRun(env, w, ss, es) && t < |es| && es[t].Mine? && es[t].at == at
    ensures at in ss[t].nodes && ss[t].nodes[at].current.Some? && at in ss[t + 1].nodes
    ensures var (m, found) := FindProof(env, ss[t].nodes[at], es[t].rounds);
            && ss[t + 1].nodes == ss[t].nodes[at := m] && m.current.Some?
            && ss[t + 1].msgs == ss[t].msgs + if found then Announcement(ss[t].nodes.Keys, at, m.current.value) else multiset{}
  {
    hide FindProof;
    hide Announcement;
    hide Perform;
    hide Enabled;
    assert Enabled(env, w, ss[t], es[t]) && ss[t + 1] == Perform(env, w, ss[t], es[t]);
    MineEventIs(env, w, ss[t], es[t]);
  }

  /** And the event that makes the next call announces the block, to every node, exactly where the search does. */
  lemma AnnouncesInRun(env: Env, w: World, ss: seq<Net>, es: seq<Event>, i: nat, j: nat, at: Address, rounds: u32)
    requires NetRun(env, w, ss, es) && i <= j < |es| && OnlySearches(ss, es, i, j, at, rounds)
    requires ss[i].nodes[at].current.Some? && ss[i].nodes[at].current.value.meta.proof == 0
    requires es[j] == Mine(at, rounds)
    ensures var c, k := ss[i].nodes[at].current.value, CallsAt(es[i..j], at);
            var q := SearchedTo(env, c, rounds, k + 1);
            && at in ss[j + 1].nodes && ss[j + 1].nodes[at].current == Some(WithProof(c, q))
            && (if Announces(env, c, rounds, k)
                then Solves(env, c, q) && forall a :: a in ss[j].nodes ==> Msg(a, ProofFound(WithProof(c, q))) in ss[j + 1].msgs
                else ss[j + 1].msgs == ss[j].msgs)
  {
    hide FindProof;
    hide Mined;
    hide Announces;
    hide SearchedTo;
    hide Perform;
    hide Enabled;
    hide Announcement;
    hide Solves;
    var n, k := ss[i].nodes[at], CallsAt(es[i..j], at);
    var c := n.current.value;
    SearchInRun(env, w, ss, es, i, j, at, rounds);
    MineIsCall(env, w, ss, es, j, at);
    CallLooksAtBlock(env, ss[j].nodes[at], Mined(env, n, rounds, k), rounds);
    MinedIs(env, n, rounds, k);
    MinedIs(env, n, rounds, k + 1);
    MinedStep(env, n, rounds, k);
    FindProofSearches(env, ss[j].nodes[at], rounds);
    SolvesWhatever(env, c, SearchedTo(env, c, rounds, k), SearchedTo(env, c, rounds, k + 1));
    if Announces(env, c, rounds, k) {
      forall a | a in ss[j].nodes ensures Msg(a, ProofFound(WithProof(c, SearchedTo(env, c, rounds, k + 1)))) in ss[j + 1].msgs {
        ReachesAll(ss[j].nodes.Keys, at, WithProof(c, SearchedTo(env, c, rounds, k + 1)), a);
      }
    }
  }

  lemma SolvesWhatever(env: Env, c: BlockVal, p: u32, q: u32)
    ensures Solves(env, WithProof(c, p), q) <==> Solves(env, c, q)
  {
  }

  lemma ReachesAll(all: set<Address>, at: Address, b: BlockVal, a: Address)
    requires a in all
    ensures Msg(a, ProofFound(b)) in Announcement(all, at, b)
  {
  }
}
