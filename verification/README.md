# SpartanGold, verified

A Dafny model of the SpartanGold cryptocurrency node and proofs about it. Three layers depend on each other.

* **Ledger replay.** A block carries association lists of balances and next nonces. `Block.AddTransaction`
  validates one transaction and writes it into those lists in place; `Block.Rerun` rebuilds a block's lists from
  its parent. `Ledger` and `Chains` hold the meaning (`Apply`, `Replay`, `Link`, `Chain`) and its laws: the lists
  behave as maps, gold is conserved, nonces count up, every transaction is signed, replicas agree. `Accounts`
  follows one address: its balance is what it had, plus coinbases and payments, minus what it paid.
* **Block store and fork choice.** `Store`, `Forks`, `Mining`, `Stability`, `Delivery` and `Wallet` describe
  what a received block does to a node, what the node keeps whatever it is sent, where branches meet, what a
  miner mines next, how the confirmed block moves, how a node catches up, and what the wallet may promise.
  `Aliases` says what the walk between branches returns under Go 1.18. `DeepForks` and `Witness` hold the
  concrete runs that show where a hypothesis is needed or can be met.
* **Network.** `Network` is a state machine over several nodes and a bag of messages in flight, delivered in
  any order. Its invariant holds in every state of every run, and the theorems above apply to each node of it.
  `Searching` follows the proof search of a node through a run, `Payments` a posted transaction from the client
  to the blocks, and `Convergence` shows that the nodes end up with the same blocks.

The program's objects are classes: `Blocks.Block`, `Sets.HashSet`, `Nets.FakeNet` and `Nodes.Node` (one class
for Client, Miner and TcpMiner, whose handlers coincide; a client is a node without a current block). Their
methods follow the Go code and are proved against the value-level functions: each states the whole new state,
the result and the messages sent. The laws are then proved about those functions, so they hold of the methods.

A block's three lists are slices, as in Go: `Slices.Slice` is a backing array with a length, an append writes
into the array while its capacity lasts, and a block passed by value shares its arrays with the original
(`Block.Share`). That no stored block is ever written to is therefore a theorem: `Block.New` and `Block.Rerun`
end with arrays that did not exist before, the arrays of all stored blocks and of the block being mined are
pairwise disjoint in every state (`Node.Valid`), and `Node.ReceiveBlock` leaves every stored block object and
array unchanged.

Where the program panics or dereferences nil, the model has an outcome (`Crash`, `Crashed`, `None`, `null`, or
`false` for `ok` and `sent`) and no precondition.

The standing assumptions are named predicates.

* `Ideal`: no two headers share a hash, no two transactions share an id, and a block is made after the block
  whose hash it names, so hashes do not run in circles. Everything else about hashing, proof of work and
  signatures stays abstract (`Env`).
* `Lawful`: the genesis block is one that `MakeGenesis` makes, and the starting supply plus every coinbase up
  to a horizon height fits in 32 bits.
* `Genuine`: the header is one an honest miner produced over the shared genesis block, and its transactions are
  `Sound`: each costs less than 2^32, and one that costs nothing comes from an address of the genesis block. The
  ledger inside the message may be anything. Theorems that need an honest run say so with this predicate. The
  store invariant, fork uniqueness, conservation modulo 2^32, replay protection and the agreement condition hold
  for any messages whatever; convergence at one node, catching up and the acceptance of an announced block hold
  for any blocks whose proofs and replays are valid, whatever their heights, rewards and costs.

* `KeysMatch`: the verifier accepts whatever is signed with the private key that belongs to the public key. Only
  the law that blocks take a posted transaction needs it.

The module `Witness` shows that these assumptions can be met together: it gives hash functions without
collisions and an honest run in which a block mined by one node becomes the tip of another.

What the code does, where it differs from what one might expect:

* `TotalOutput` includes the fee, so blockchain/transaction_test.go:126 (which expects 300) does not describe
  it. Fees are burned: `Rerun` pays only the coinbase.
* A costless transaction of a sender without balance entry makes `AddTransaction` index its list at -1
  (blockchain/block.go:251-252). `ApplyRefinesMaps` says exactly when.
* A rejection for the nonce leaves a zero nonce entry behind (blockchain/block.go:228-233). No lookup sees it.
* A block of height 0 is stored without proof or replay, and the hash does not cover the ledger, so two nodes
  may store different ledgers under one hash: `RootsMayDisagree` shows it. They store the same ancestry exactly
  when they store the same root, and they agree on an address exactly when their roots do (`NodesAgreeIff`,
  `TipsAgreeIff`). The lists themselves may converge from different roots (`ListsMayConverge`).
* A block whose transaction ids are wrong changes its hash when it is replayed. It may then be filed over an
  already stored block, which is the identical block. Its proof is checked before that, so a stored block may
  lack a valid proof: `ProofMayBeLost` shows one, and `StoredProof` says exactly when a stored block has one.
* Heights are not checked against the parent's. A proved block that claims too great a height becomes the tip,
  and a miner that cuts over to it may walk below the genesis block and dereference nil
  (blockchain/miner.go:248-269). `SyncCrashesIff` gives the exact condition in terms of the two ancestries,
  `HeightJumpCrashes` a family of such blocks, `JumpCrashesMiner` a concrete one, and `MinerCrashesIff` every
  way in which a received block crashes a miner, told from the state before. In an honest run none of them
  happens (`HonestNeverCrashes`).
* `SyncTransaction` takes the address of its range variable (blockchain/miner.go:250, 259, 262), so under Go 1.18
  (go.mod:3) its sets show every transaction of a block as the last one. `Forks.SyncTransaction` is what is meant,
  `Aliases.AliasedSync` what is returned. `HonestAliases` says exactly when the two agree, block by block; one
  transaction a block is enough (`SinglesAgree`), two are too many (`FirstOfTwoIsLost`).
* The supply is the total of a list, which is what the addresses own only if no address is listed twice
  (`RepetitionCountsTwice`). `MakeGenesis` lists each once, and no block over it ever lists one twice
  (`ChainListsOnce`, `OwnedIsConserved`).
* Of two roots with one hash and different ledgers a node keeps the one that arrives first
  (`RootOrderMatters`). With one root the order of delivery does not matter (`DeliveryConverges`).
* A fork switch below the confirmed block replaces confirmed history. `ConfirmedIsStableIff` gives the exact
  condition on the state before the block arrives, which is also the hypothesis of wallet safety, and
  `ConfirmedMayBeReplaced` an honest run in which it happens.
* Nothing ties a transaction's public key to its sender, so that only the client spends its gold is a
  hypothesis of wallet safety (`SoleSpender`).
* The proof search does not try all 2^32 proofs: its pause point wraps and the loop then never runs again.
  `SearchSucceedsIff` gives the exact range, `LastProofIsMissed` a proof that no search ever finds.
* `StartNewSearch` empties the pool even of the transactions the new block rejected, and offers them in no
  particular order. `NewSearchKeeps` says which of one sender's transactions the new block takes, `KeepsAllIff`
  when that is all of them, and `WrongOrderLoses` shows an order that loses one.

## Model

| member | source | states |
|---|---|---|
| Prelude.IndexIs | blockchain/block.go:51-71 | the list lookup returns the first match, and -1 exactly when there is none |
| Prelude.PutGet | blockchain/block.go:311-318 | overwriting or appending one name changes what the list says about that name only; absent names read as 0 |
| Prelude.PutTotal | blockchain/block.go:250-263 | overwriting one name moves the total of the list by exactly the change at that name |
| Prelude.PutDistinct | blockchain/block.go:250-263 | overwriting or appending keeps every name listed once |
| Prelude.TotalIsSum | blockchain/block.go:51-71 | the total of a list without repetitions is the sum, over the names it lists, of what a lookup says about them |
| Prelude.RepetitionCountsTwice | blockchain/block.go:51-71 | with a name listed twice the total is not that sum |
| Ledger.ApplyRefinesMaps | blockchain/block.go:213-266 | on any lists: a transaction is accepted iff it is new, signed, verified, funded and next in nonce; an accepted one debits the sender and credits every output at once, self-payments and repeats included, with default 0; a rejected one changes nothing a lookup sees; it panics iff acceptable but the sender has no entry, and then costs 0 |
| Ledger.AcceptsIff | blockchain/block.go:213-251 | acceptance spelled out: no listed id is the transaction's, it is signed and the verifier accepts it, its sender is listed with at least the 32-bit cost, and its nonce is the next one |
| Ledger.ForgedIsRefused | blockchain/block.go:217-223 | an unsigned transaction, or one whose signature the verifier does not accept, is refused and leaves every list as it is |
| Ledger.ReplayIsSigned | blockchain/block.go:299-308 | every transaction of a replayed block is signed and verified |
| Ledger.PanicIsReachable | blockchain/block.go:250-252 | a concrete costless transaction of an unknown sender crashes the node |
| Ledger.ApplyConserves | blockchain/block.go:250-263 | an accepted transaction moves the total down by its fee: modulo 2^32 always, exactly when supply and cost fit in 32 bits |
| Ledger.ApplyIsExact | blockchain/block.go:250-263 | without overflow no balance wraps: each is the exact old balance minus debit plus credits, so the sender never underflows |
| Ledger.RewardedIs | blockchain/block.go:286-297 | a replay starts from the parent's balances with the parent's coinbase added at the parent's payee and nowhere else |
| Ledger.ReplayIsCanonical | blockchain/block.go:298-308 | a successful replay keeps every transaction in order and recomputes every id |
| Ledger.ReplayIgnoresIds | blockchain/block.go:298-308 | the ids a message carries do not influence the replay |
| Ledger.RerunIsIdempotent | blockchain/block.go:268-309 | rerunning a replayed block on the same parent reproduces it exactly |
| Ledger.ApplyListsOnce | blockchain/block.go:213-266 | a transaction, accepted or refused, leaves lists that name nobody twice |
| Ledger.RerunListsOnce | blockchain/block.go:268-309 | and so does a replay, reward included |
| Ledger.ReplayConserves | blockchain/block.go:298-308 | a replayed block burns exactly its fees and conserves the rest |
| Ledger.ReplayCountsNonces | blockchain/block.go:228-245 | in an accepted block each sender's nonces continue the parent's count without gap or repetition, and the block stores the next one |
| Chains.BlockConserves | blockchain/block.go:286-307 | one block: the parent's reward in, the block's fees out |
| Chains.ChainConserves | blockchain/block.go:268-309 | along any chain the supply is the starting supply plus coinbases of proper ancestors with a payee minus all fees: modulo 2^32 always, as integers when supply and costs fit |
| Chains.ChainListsOnce | blockchain/block.go:268-309 | over a root that lists nobody twice no block of any chain does |
| Chains.OwnedIsConserved | blockchain/block.go:268-309 | over such a root the sum of the balances of all addresses is the supply, and so moves by the coinbases paid and the fees alone |
| Chains.ChainIsSigned | blockchain/block.go:217-223 | no transaction of any chain above its root is unsigned or forged |
| Accounts.ApplyMoves | blockchain/block.go:250-263 | an accepted transaction takes outputs and fee from its sender and gives every address what its outputs say: modulo 2^32 always, exactly under the bounds |
| Accounts.ReplayMoves | blockchain/block.go:298-308 | a replay moves every address by what it is paid minus what it pays |
| Accounts.BlockMoves | blockchain/block.go:286-307 | a block moves every address by that, plus the parent's coinbase if the address is the parent's payee |
| Accounts.ChainMoves | blockchain/block.go:268-309 | along any chain the balance of an address is its balance at the root plus the coinbases and payments it got minus what it paid: modulo 2^32 always, exactly when supply and costs fit |
| Accounts.HonestBalance | blockchain/block.go:268-309 | on an honest node that is exactly so for every stored block |
| Chains.ChainCountsNonces | blockchain/block.go:228-245 | along any chain each sender's nonces count up from the root's next nonce, and the tip stores the next one |
| Chains.CountsUpDistinctIff | blockchain/block.go:235-245 | the 32-bit count repeats no nonce iff a sender has at most 2^32 transactions |
| Chains.NoTransactionTwice | blockchain/block.go:213-217 | no sender's nonce occurs twice on a chain, so no transaction and no re-signed copy of one does, although each block only looks for duplicates in itself (while a sender has at most 2^32 transactions) |
| Chains.SameTipSameHeaders | blockchain/block.go:163-176 | chains that end in the same hash have the same length, headers and transactions |
| Chains.AgreementIffSameRoot | blockchain/block.go:268-309 | chains that end in the same hash are equal, ledgers included, iff their roots are |
| Chains.TipsAgreeIff | blockchain/block.go:268-309 | chains that end in the same hash agree on the balance, and on the next nonce, of an address at the tip iff they agree on it at the root |
| Chains.ListsMayConverge | blockchain/block.go:254-263 | agreement is per address and not per entry: two roots with different lists that have the identical child |
| Chains.RootsMayDisagree | blockchain/client.go:105-133 | the condition is needed: two roots with one hash and different ledgers |
| Store.PathUnique | blockchain/client.go:215-224 | a block has at most one path of parent links down to a root |
| Store.DescendStops | blockchain/client.go:215-224 | the walk to the confirmed block stops at the uppermost ancestor that is low enough; where heights are positions it is the one at that very height |
| Store.FreshInv | blockchain/client.go:38-50 | a node that stores only the genesis block satisfies the store invariant |
| Store.FileKeepsTree | blockchain/client.go:132-133 | filing a root or a replayed child keeps keys equal to hashes, parents stored, links replayed, every block rooted, and changes no other entry |
| Store.KeepKeepsInv | blockchain/client.go:132-146 | filing, moving the tip and freeing the orphans keeps the store invariant |
| Store.ReceiveKeepsInv | blockchain/client.go:94-155 | no message, honest or not, breaks the store invariant: keys are hashes, parents are stored, books are replays, links are acyclic, parked blocks name a missing parent, the tip is a highest block, the confirmed block is read off it; no stored block is changed or dropped |
| Store.NodesAgreeIff | blockchain/client.go:126-133 | two nodes fed any messages that store the same hash store the same ancestry iff they store the same root, and agree on an address's balance or nonce in that block iff they agree on it in the root |
| Store.AsksOnce | blockchain/client.go:109-124 | over any run a node requests a missing block at most once |
| Store.StoredProof | blockchain/client.go:105-133 | a block is stored under a parent only if it came with a valid proof; what is stored carries the same header and the recomputed ids, hashes to the same iff the ids were right, then has the proof, and in general has one iff the recomputed hash meets the target |
| Store.ReceiveKeepsProofs | blockchain/client.go:105-133 | whatever the messages, every stored block with a parent came with a valid proof |
| Honest.SupplyBound | blockchain/block.go:286-307 | on an honest chain the supply never outgrows the starting supply plus one coinbase a block, so nothing overflows |
| Honest.GoodListsOnce | blockchain/block.go:286-307 | over a genesis block that lists nobody twice the addresses never own more together than the starting balances plus one coinbase a block |
| Honest.GoodUnique | blockchain/block.go:268-309 | the header of an honest block determines the whole block, ledger included |
| Honest.GoodLists | blockchain/block.go:250-263 | an honest block lists every address of the genesis block, so its costless transactions cannot crash a node |
| Honest.HonestReceipt | blockchain/client.go:94-155 | an honest block is dropped iff stored, parked iff its parent is missing, otherwise stored under its own hash with the one ledger it can have; never refused, never a crash |
| Honest.HonestReceive | blockchain/client.go:94-155 | honest blocks keep honest nodes honest, and the blocks set free are honest |
| Honest.HeightsArePositions | blockchain/client.go:215-224 | on an honest node the block at height k of any ancestry is its k-th, above the shared genesis |
| Mining.OfferKeepsAnnounceable | blockchain/miner.go:113-117 | offering a sound transaction to the block being mined neither panics nor makes the rest of the network refuse the block |
| Mining.AssembleIsAnnounceable | blockchain/miner.go:96-121 | a block filled from any pool in any order stays one that replays on its parent |
| Mining.AssembleKeeps | blockchain/miner.go:113-117 | where nothing but nonces stands in the way, the new block takes of one sender exactly those transactions whose nonce is next when they are offered |
| Mining.KeepsAllIff | blockchain/miner.go:113-117 | that is all of the sender's transactions iff their nonces, in the order offered, count up from the next one |
| Mining.WrongOrderLoses | blockchain/miner.go:113-119 | two transactions with consecutive nonces: the block that is offered them in order takes both, the block that is offered them in the wrong order takes the first only |
| Mining.AssemblePanicsIff | blockchain/miner.go:113-117 | filling the block panics iff some transaction does after those before it have been offered |
| Mining.ProvedIsGenuine | blockchain/miner.go:124-146 | a block assembled on an honest tip and proved is an honest block, and its network ledger is the replay |
| Mining.AnnouncedIsAccepted | blockchain/miner.go:96-146 | every node that stores the parent accepts an announced block, under the announced hash, whatever else it stores; its ledger is the miner's plus the parent's coinbase at the parent's payee and nothing else |
| Mining.AnnouncedSettles | blockchain/miner.go:96-146 | an honest node stores the very block that the header stands for |
| Accounts.NewSearchIs | blockchain/block.go:73-111 | a new search makes a block on the tip, one higher, made now, under the configured target or else the tip's, that pays the configured coinbase to the miner's own address; the pool is empty |
| Accounts.NewSearchIsSolvedIff | blockchain/miner.go:96-121 | a proof of that block is valid iff it brings the hash below the configured target, or below the tip's when none is configured |
| Accounts.MinerIsPaid | blockchain/block.go:286-297 | in every child of the block the network stores for it the miner's address gains exactly the configured coinbase on top of the child's transactions, and no other address gains anything on top |
| Mining.Scan | blockchain/miner.go:124-140 | one call of the search stops at the first valid proof below the pause point, having ruled out all it passed |
| Mining.SearchIsExhaustive | blockchain/miner.go:124-146 | after k calls from proof 0 the search stands at the least valid proof or has ruled out everything below its reach |
| Mining.ReachIs | blockchain/miner.go:129-140 | that reach is k times the mining rounds, up to the greatest multiple that fits in 32 bits |
| Mining.SearchSucceedsIff | blockchain/miner.go:124-146 | some call announces a proof iff a valid one lies below the greatest multiple of the rounds that fits in 32 bits |
| Mining.LastProofIsMissed | blockchain/miner.go:129-140 | if the last of the 2^32 proofs is the only valid one, no call ever announces it |
| Searching.FindProofSearches | blockchain/miner.go:124-146 | one call of the node: every proof it passes is invalid; if it announces, the proof it stops at is valid; if not, it stands exactly at the pause point, or has not moved because the pause point wrapped |
| Searching.MinedIs | blockchain/miner.go:124-146 | k calls of the node are the k calls that the laws above are about, and the next call announces exactly where they say |
| Searching.MinedIsExhaustive | blockchain/miner.go:124-146 | so the node's search stands at the least valid proof, or has ruled out everything below k times the rounds, up to the greatest multiple that fits in 32 bits |
| Searching.MiningSucceedsIff | blockchain/miner.go:124-146 | and the node announces at some call iff a valid proof lies below that multiple |
| Searching.SearchInRun | blockchain/miner.go:124-158 | in every run, whatever happens in between, a node's calls on one block add up as if made one after the other |
| Searching.AnnouncesInRun | blockchain/miner.go:132-158 | and the call that finds a proof puts the block with that proof in flight to every node; the others send nothing |
| Searching.FindingSends | blockchain/miner.go:132-158 | a call that finds a proof sends exactly one delivery to every node and starts one ReceiveBlock at the miner itself; any other call sends nothing |
| Forks.MeetIsForkPoint | blockchain/miner.go:242-274 | the walk down two branches stops at their lowest common ancestor: everything up to it is shared, nothing above is |
| Forks.BranchTxsAre | blockchain/miner.go:254-260 | the transactions collected on the way down are exactly those of the blocks passed |
| Forks.LockstepIs | blockchain/miner.go:257-274 | the second loop on any two branches: equally long ones end at the fork point, a shorter current branch ends without having met the other, a longer one crashes the program |
| Forks.SyncCrashesIff | blockchain/miner.go:242-281 | on any store: the walk crashes iff fewer ancestors of the new tip, or none, are left at the current height than the block being mined has; otherwise the result, under value semantics, is the abandoned branch above the fork point minus the new branch there |
| Forks.HonestSyncs | blockchain/miner.go:242-281 | on honest stores it never crashes and, under value semantics, returns what the abandoned branch has above the fork point and the new one lacks there |
| Forks.HeightJumpCrashes | blockchain/miner.go:202-226 | a proved empty child of the genesis block that claims to be higher than the block being mined becomes the tip of any honest miner and crashes it |
| Forks.MinerCrashesIff | blockchain/miner.go:161-229 | any message at any node, from the state before: it crashes the miner iff its replay panics, or it is filed, makes the miner cut over, and leaves too few ancestors or panics the new search |
| Forks.NewSearchWorksOnTip | blockchain/miner.go:96-121 | a new search leaves the miner working on its tip, one higher, and no sound pool panics it |
| Forks.NewSearchKeeps | blockchain/miner.go:96-121 | a new search takes those transactions of a sender, from the tip's next nonce on, and clears the pool |
| Forks.TipMovesByOne | blockchain/miner.go:202-205 | an honest block moves the tip iff it is higher, and then by exactly one |
| Forks.MinesOnTip | blockchain/miner.go:161-229 | a miner of an honest run always works on its tip; it cuts over iff the tip changes, and then the first loop of SyncTransaction has nothing to do |
| Forks.BlocksShareNothing | blockchain/block.go:213-217 | different blocks of one chain hold different transactions |
| Forks.CurrentRepeatsNothing | blockchain/miner.go:113-117 | the block being mined never repeats a transaction of its ancestors |
| Forks.RequeuesWhatTheNewBranchLacks | blockchain/miner.go:242-281 | under value semantics, on a cut-over exactly those transactions above the fork point are put back into the pool that the new branch lacks altogether |
| Aliases.AliasedAre | blockchain/miner.go:248-281 | under Go 1.18 a transaction is returned iff it is the last of an abandoned block one of whose transactions is last in no block of the new branch |
| Aliases.AliasedAgreesIff | blockchain/miner.go:248-281 | that is what the abandoned branch has and the new one lacks iff of every abandoned block either all transactions are last in blocks of the new branch, or the new branch lacks exactly the last one |
| Aliases.SinglesAgree | blockchain/miner.go:248-281 | with one transaction a block the two agree |
| Aliases.FirstOfTwoIsLost | blockchain/miner.go:248-281 | of a block with two transactions that the new branch lacks the first is lost |
| Aliases.HonestAliases | blockchain/miner.go:242-281 | in honest runs, while no sender has more than 2^32 transactions: the walk ends at the fork point, and the program returns what is meant iff every abandoned block above it is of that kind |
| Stability.ConfirmedIsAncestor | blockchain/miner.go:390-399 | the confirmed block is the tip's unique ancestor at height max(0, n - 6), and it is stored |
| Stability.SharedIffBelowFork | blockchain/miner.go:242-274 | two tips share their ancestor at a height iff it is below the fork point |
| Stability.MovesTip | blockchain/miner.go:202-205 | an honest block moves the tip iff it is new, its parent is stored and it is higher, and then it is the tip |
| Stability.ForkPointStays | blockchain/miner.go:202-205 | the old and the new tip meet where the old tip's branch meets the one that the block extends |
| Stability.ConfirmedIsStableIff | blockchain/miner.go:202-205 | when a block moves the tip, the confirmed block stays confirmed iff the branch that the block extends leaves the tip's branch above it; past the depth it then advances to exactly its child, before that it is the same |
| DeepForks.ConfirmedMayBeReplaced | blockchain/miner.go:202-205 | a concrete honest run over two branches of heights 7 and 8 in which a node gives up its confirmed block |
| Delivery.StepKeeps | blockchain/client.go:94-155 | over any parent-closed set of blocks with valid proofs and replays: no call and no answer loses a block, and nothing outside the set is ever seen |
| Delivery.StepProgresses | blockchain/client.go:140-152 | over any such set every step stores one more block, or hears of one more, or leaves less work |
| Delivery.EveryRunSettles | blockchain/client.go:140-152 | over any such set, whatever the order of deliveries and answers, a run reaches a state with nothing left to do |
| Delivery.DeliveryConverges | blockchain/client.go:94-155 | deliver any such set in any order, with any repetitions and any ledgers: at rest the store is exactly that set with the same ledgers, nothing waits, and the tip is a highest block |
| Delivery.RootOrderMatters | blockchain/client.go:105-133 | the set has one root because two roots with one hash are stored as they come: the order of delivery decides which one a node keeps |
| Delivery.HonestSetIsClosed | blockchain/client.go:94-155 | any parent-closed set of honest blocks is such a set |
| Delivery.JoinerCatchesUp | blockchain/client.go:111-124 | a node with only the root that hears of one block of such a set ends up with exactly the chain below it, a highest block as tip, nothing waiting, after one request for each block strictly in between; each request is broadcast, the peers' stores and answers may change all the time, and it is enough that one keeps the set |
| Delivery.LateJoinerCatchesUp | blockchain/client.go:111-124 | in honest runs the block heard of, of height n, becomes the tip after n - 1 requests |
| Wallet.ReplayTakesOnlySpent | blockchain/block.go:250-263 | a replay takes from an address no more than what its own transactions cost |
| Wallet.SpentIsOwed | blockchain/client.go:58-64 | a replay takes no transaction twice, so what an address spends in a block is what the set of its transactions there owes |
| Wallet.OwedIsSum | blockchain/client.go:58-64 | the pending debt is the sum of the 32-bit costs, in any order |
| Wallet.ReceiveKeepsWallet | blockchain/client.go:215-230 | a received block keeps pending equal to posted minus confirmed, and covered by the confirmed balance |
| Wallet.PostKeepsWallet | blockchain/client.go:67-90 | posting keeps that too; it is refused iff there are no outputs or the 32-bit cost exceeds the balance listed in the confirmed block minus the exact pending debt; a posted transaction is new |
| Wallet.WalletIsSafe | blockchain/client.go:53-90 | in every state of every run with one spender and no fork switch below the confirmed block: pending is exactly posted minus confirmed, covered, and AvailableGold plus the pending debt is the balance listed in the confirmed block, which is the genesis balance plus the coinbases and payments the client got minus what it paid along that block's ancestry |
| Payments.PostedIs | blockchain/client.go:80-86 | a posted transaction pays the outputs and the fee asked for, has the client's next nonce, and is signed with its key |
| Payments.PostedIsAcceptedIff | blockchain/block.go:213-251 | with matching keys a block takes it iff it lists the client with at least the cost, has come to the client's nonce and does not list its id |
| Payments.PostedMoves | blockchain/block.go:250-263 | then the client pays exactly the outputs and the fee asked for, every address gets what the outputs say, and the fee is burned |
| Payments.PostingSends | blockchain/client.go:86-87 | posting puts exactly one delivery in flight to every registered client, at a miner one call for its own pool, and nothing else |
| Payments.DeliveryPools | blockchain/miner.go:285-299 | a delivered transaction joins the pool of a started miner; a client and a miner that has not started ignore it |
| Payments.StaysInFlight | blockchain/FakeNet.go:31-38 | whatever is in flight stays so until it is delivered |
| Payments.PostedReachesMiners | blockchain/miner.go:285-299 | in every run a posted transaction is in flight to every node then registered until it is delivered there, and then in its pool if the node is a started miner |
| Payments.LeavesPoolOffered | blockchain/miner.go:109-119 | a transaction leaves a pool only by being offered to a new block |
| Payments.CutOverOffers | blockchain/miner.go:221-226 | on a cut-over the new block is offered, once each, exactly the pool and what the abandoned branch has above the fork point and the new one lacks there; it is filled with what it takes of that, and the pool is empty |
| Network.StepKeepsNet | blockchain/FakeNet.go:31-82 | every event of an honest network keeps every node an honest miner or client on its tip and every message in flight honest |
| Network.RunKeepsNet | blockchain/FakeNet.go:31-82 | so in every state of every run |
| Network.NetworkAgrees | blockchain/client.go:126-133 | in every state of every run two nodes that store the same hash store the same block and ledger, whatever ledgers the messages carried |
| Network.NetworkAccepts | blockchain/miner.go:161-229 | in every state of every run no delivery panics a node, a block is dropped iff known and stored iff its parent is, under its own hash, and every miner works one above its tip |
| Convergence.EventSpreads | blockchain/FakeNet.go:31-82 | no event loses a block, what is new somewhere is on its way to every node, and every missing parent is on its way or asked of a node that stores it |
| Convergence.StaysCaughtUp | blockchain/client.go:94-155 | a node that every block known anywhere has reached stays so for the rest of the run |
| Convergence.NoneWaits | blockchain/client.go:109-124 | with no block and no request in flight no node has a parked block |
| Convergence.NetworkConverges | blockchain/client.go:94-155 | in any state of any run with no block and no request in flight: nothing is parked anywhere, every node that was registered before the first block was mined stores all that any node stores, and these nodes store the same blocks under tips of one height |
| Witness.HonestRunsExist | blockchain/miner.go:84-229 | the hypotheses of the network theorems are met: two nodes join, one mines a block, and it becomes the tip of the other |
| Witness.JumpCrashesMiner | blockchain/miner.go:248-269 | a concrete miner at work on height 1 crashes on a proved child of the genesis block that claims height 100 |
| Witness.ProofMayBeLost | blockchain/client.go:105-133 | a concrete node and block: a child with a wrong transaction id is stored without a valid proof |
| Slices.Append | blockchain/block.go:80-93 | an append writes at the position past the slice, in place iff the capacity lasts and otherwise into an array of its own; nothing else of the old array changes |
| Slices.Clone | blockchain/block.go:80-93 | appending a list to an empty slice copies it into an array of its own |
| Slices.Write | blockchain/block.go:250-263 | an element write changes the backing array at that position only |
| Blocks.SumOutputs | blockchain/transaction.go:142-149 | the loop computes the cost, fee included, in 32 bits |
| Blocks.FindIndex | blockchain/block.go:51-71 | the search loop returns the first position of the name |
| Blocks.PutEntry | blockchain/block.go:254-263 | the entry of a name is overwritten in place, or one is appended |
| Blocks.Block.New | blockchain/block.go:73-111 | a child with the parent's hash, height plus one and the parent's lists, in arrays that did not exist before, or without parent a root; payee, coinbase, target and time are those passed in, the proof is 0 |
| Blocks.Block.Decoded | blockchain/block.go:155-161 | a block decoded from a message has arrays of its own |
| Blocks.Block.Share | blockchain/client.go:94-98 | a block passed by value shares its arrays with the original |
| Blocks.Block.FindTransactionIndex | blockchain/block.go:40-49 | the first transaction with that id, or -1 and none has it |
| Blocks.Block.Contains | blockchain/block.go:334-337 | whether the block lists the transaction's id |
| Blocks.Block.BalanceOf | blockchain/block.go:311-318 | the listed balance, or 0 |
| Blocks.Block.SufficientFund | blockchain/block.go:320-323 | whether the 32-bit cost is covered |
| Blocks.Block.Deposit | blockchain/block.go:254-263 | one output is added in place, or appended for a new address |
| Blocks.Block.PayOutputs | blockchain/block.go:254-263 | all outputs are paid in order, repeats included |
| Blocks.Block.NonceEntry | blockchain/block.go:228-233 | a missing nonce entry is appended as 0 |
| Blocks.Block.SetNonce | blockchain/block.go:243-244 | the sender's entry, and no other, is overwritten |
| Blocks.Block.Withdraw | blockchain/block.go:250-252 | the sender's entry loses the cost, modulo 2^32; without entry the program indexes at -1 |
| Blocks.Block.AddTransaction | blockchain/block.go:213-266 | the outcome, crash included, and all three lists afterwards are those of the ledger transition, on every path; what the verifier does not accept is refused with all lists unchanged; only the block's own arrays are written to or replaced by new ones |
| Blocks.Block.Reward | blockchain/block.go:286-297 | the parent's coinbase is added to its payee in the copy, and the parent's own entry stays |
| Blocks.Block.Inherit | blockchain/block.go:274-297 | the ledger a replay starts from, in arrays that did not exist before |
| Blocks.Block.ReEnter | blockchain/block.go:299-308 | the loop is the replay, stopping at the first refusal or crash |
| Blocks.Block.Rerun | blockchain/block.go:268-309 | the rebuilt lists are the replay on the parent, in arrays that did not exist before, and no existing array is written to; a nil parent is refused and changes nothing |
| Blocks.MakeGenesis | blockchain/blockchain.go:39-58 | height 0, no payee, exactly the starting balances, each address once, their total the sum of the starting balances; a nil map is refused |
| Sets.HashSet.Add | blockchain/set.go:20-28 | the item is added unless its hash is present; where hashes distinguish, the set grows by exactly the item |
| Sets.HashSet.Remove | blockchain/set.go:30-37 | the item's hash is gone; where hashes distinguish, the set loses exactly the item |
| Sets.HashSet.Contains | blockchain/set.go:39-45 | presence of the hash, which is membership where hashes distinguish |
| Sets.HashSet.ToArray | blockchain/set.go:53-61 | every item exactly once, in some order |
| Sets.HashSet.Clear | blockchain/set.go:63-67 | the set is empty |
| Nets.FakeNet.Register | blockchain/FakeNet.go:22-28 | all listed clients are added |
| Nets.FakeNet.Broadcast | blockchain/FakeNet.go:31-38 | exactly one delivery per registered client is put in flight, the sender included |
| Nets.FakeNet.SendMessage | blockchain/FakeNet.go:70-82 | exactly one delivery is put in flight to a registered address; for any other the program calls a nil client |
| Nodes.ReceivesKeepsInv | blockchain/miner.go:161-229 | whatever the message, unless it crashes the node, Node.ReceiveBlock leaves it with the store invariant and every block |
| Nodes.HonestNeverCrashes | blockchain/miner.go:161-229 | in an honest run Node.ReceiveBlock never crashes a node, whatever the order of the pool, and a miner goes on working on its tip |
| Nodes.Node.constructor | blockchain/client.go:265-292 | a fresh node stores the genesis block only |
| Nodes.Node.SetLastConfirmed | blockchain/client.go:215-230 | the walk never dereferences a missing block, ends at the ancestor the specification names, and settles exactly the pending transactions that block contains |
| Nodes.Node.Settle | blockchain/client.go:226-230 | deleting during the iteration removes exactly the contained ones |
| Nodes.Node.StartNewSearch | blockchain/miner.go:96-121 | a fresh block on the tip in arrays of its own, filled from the pool and the given set in some order, proof 0, the pool empty; it fails exactly where the program panics |
| Nodes.Node.Initialize | blockchain/miner.go:84-94 | the first search is the same transition with the node's own pool |
| Nodes.Node.FindProof | blockchain/miner.go:124-158 | the new proof, the result and the messages are those of one search step, which `Searching` characterises; a found block goes to everybody and to the miner itself |
| Nodes.Node.AddTransaction | blockchain/miner.go:285-289 | the pool grows by exactly the transaction |
| Nodes.Node.ConfirmedBalance | blockchain/client.go:53-55 | the balance that the confirmed block lists for the client, or 0 |
| Nodes.Node.AvailableGold | blockchain/client.go:58-64 | the 32-bit difference of confirmed balance and pending cost |
| Nodes.Node.PendingSpent | blockchain/client.go:59-62 | the loop computes the exact debt of the pending set, modulo 2^32, in any order |
| Nodes.Node.PostTransaction | blockchain/miner.go:314-337 | refused without any change, or exactly one signed transaction is pending, announced and, at a miner, also on its way to the miner's own pool, whether or not it mines yet |
| Nodes.Node.SyncTransaction | blockchain/miner.go:242-281 | on any store both loops terminate, and the result is the one specified under value semantics, null exactly where the program dereferences nil |
| Nodes.Node.WalkToLevel | blockchain/miner.go:248-253 | the new branch is brought to the current height, whatever heights its blocks claim, and its transactions on the way are collected |
| Nodes.Node.WalkInStep | blockchain/miner.go:257-274 | both branches are walked down until their hashes meet, the current branch ends, or the program dereferences nil, and their transactions are collected |
| Nodes.Node.Spawn | blockchain/client.go:148-152 | one call in flight for each freed block |
| Nodes.Node.File | blockchain/client.go:132-152 | filing, tip, confirmed block, freed orphans and spawned calls together are the specified transition |
| Nodes.Node.Validate | blockchain/client.go:126-132 | the replayed copy is the block the specification files, in arrays apart from all stored ones; null iff it is refused or the replay crashes |
| Nodes.Node.Rebuild | blockchain/client.go:126-130 | the replay of a block that shares its arrays with the original writes to nothing that exists |
| Nodes.Node.Insert | blockchain/client.go:132-133 | one more stored block; the arrays of all stored blocks stay pairwise disjoint and apart from the current block's |
| Nodes.Node.Park | blockchain/client.go:109-124 | the orphan waits under its parent, and the parent is requested the first time only |
| Nodes.Node.Accept | blockchain/client.go:94-155 | the client's ReceiveBlock is the specified transition, with its result and its messages |
| Nodes.Node.CutOver | blockchain/miner.go:221-226 | the abandoned transactions join the pool and a new search starts on the new tip, or one of the two crashes, as specified |
| Nodes.Node.ReceiveBlock | blockchain/miner.go:161-229 | for every message: new state, result, crash and messages are those of the specified transition; no block object stored before and none of its arrays is written to, and all stay pairwise disjoint |
| Nodes.Node.RequestMissingBlock | blockchain/client.go:169-178 | the request goes to every registered client |
| Nodes.Node.ProvideMissingBlock | blockchain/client.go:193-211 | the stored block goes to the asker and nobody else; an unknown hash sends nothing; an unregistered asker of a stored block crashes the program |

## Left out

- RSA, SHA-256, JSON and hexadecimal: a signature predicate, two collision-free hash functions and identity serialisation stand for them.
- Clocks, the order in which Go enumerates a map and the default proof-of-work target are parameters (`now`, `order`, `config.target`; no target means the tip's, as in TcpMiner).
- Nodes.Node.SyncTransaction: collects the transactions themselves, as `Forks.SyncTransaction` does; so do the runs of `Network`; the pointers of Go 1.18 are in `Aliases`, on values.
- How far an append enlarges an array is fixed in `Slices.Append`; no contract promises it.
- Parked blocks and message contents are values, decoded afresh on delivery; the set of orphans under one parent is a map.
- Goroutines are calls in flight; the handler of each runs as one atomic step, since it holds the node's mutex. TcpMiner.PostTransaction, part of which runs outside the lock, is covered only when nothing interleaves.
- Blocks.Block.AddTransaction: says nothing about the lists after a crash, nor do `Blocks.Block.Rerun` and `Nodes.Node.ReceiveBlock` about the state, since the program is then gone.
- Nodes.Node.ReceiveBlock: a block of height 0 must have arrays of its own, as every decoded message has (`Block.Decoded`), since it is stored as it comes.
- RealNet, TCP listening and registration, SaveJson, run.go, configuration files, logging and the Show functions: plumbing and user interface.
- ResendPendingTransactions, PendingReceivedTransactions, ReceivedBlock, TotalRewards, Recognizes: no state effect or no caller.
- The emission library and the mutex implementation are not part of this model.
