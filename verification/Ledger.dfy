/**
 The ledger of a block: transactions, balances and next-nonces, what one transaction does
 to them, and what replaying a block on top of its parent does.
 */
module Ledger {
  import opened Prelude

  type Address = string
  type Hash = string
  type TxId = string

  datatype Output = Output(address: Address, amount: u32)

  datatype TransactionInfo = TransactionInfo(
    from: Address, nonce: u32, pubkey: string, fee: u32, outputs: seq<Output>, data: string)

  /** sig is None where the program has a nil signature. */
  datatype Transaction = Transaction(info: TransactionInfo, sig: Option<string>)

  datatype TxEntry = TxEntry(id: TxId, tx: Transaction)

  /** The fields of a block that nothing rewrites once its parent is known, except proof. */
  datatype Meta = Meta(
    prev: Hash, target: nat, proof: u32, height: u32, timestamp: int, rewardAddr: Address, coinbase: u32)

  /** The fields of a block that AddTransaction writes. */
  datatype Book = Book(txs: seq<TxEntry>, balances: seq<Entry>, nonces: seq<Entry>)

  datatype BlockVal = BlockVal(meta: Meta, book: Book)

  /** What is hashed: the whole block but its balances and next-nonces. */
  datatype Header = Header(meta: Meta, txs: seq<TxEntry>)

  /** The cryptography, kept abstract. headerOf, txOf and age exist to say that the two
      hashes never collide and make no cycles (see Ideal); the program has no such operations. */
  datatype Env = Env(
    blockHash: Header -> Hash,
    headerOf: Hash -> Header,
    magnitude: Hash -> nat,
    txHash: Transaction -> TxId,
    txOf: TxId -> Transaction,
    verifier: Transaction -> bool,
    signer: (string, TransactionInfo) -> string,
    age: Hash -> nat)

  /** No two headers share a hash, no two transactions share an id, and no header names its own hash as its
      parent, directly or through others: a hash is younger than the one its header names. */
  ghost predicate Ideal(env: Env) {
    && (forall h :: env.headerOf(env.blockHash(h)) == h)
    && (forall h: Header :: env.age(h.meta.prev) < env.age(env.blockHash(h)))
    && (forall t :: env.txOf(env.txHash(t)) == t)
  }

  function HashOf(env: Env, b: BlockVal): Hash {
    env.blockHash(Header(b.meta, b.book.txs))
  }

  function IdOf(env: Env, tx: Transaction): TxId {
    env.txHash(tx)
  }

  predicate Verified(env: Env, tx: Transaction) {
    env.verifier(tx)
  }

  /** The hash, read as a number, lies below the target. */
  predicate HasValidProof(env: Env, b: BlockVal) {
    env.magnitude(HashOf(env, b)) < b.meta.target
  }

  lemma SameHash(env: Env, a: BlockVal, b: BlockVal)
    requires Ideal(env) && HashOf(env, a) == HashOf(env, b)
    ensures a.meta == b.meta && a.book.txs == b.book.txs
  {
    assert env.headerOf(HashOf(env, a)) == Header(a.meta, a.book.txs);
    assert env.headerOf(HashOf(env, b)) == Header(b.meta, b.book.txs);
  }

  lemma SameId(env: Env, s: Transaction, t: Transaction)
    requires Ideal(env) && IdOf(env, s) == IdOf(env, t)
    ensures s == t
  {
    assert env.txOf(IdOf(env, s)) == s && env.txOf(IdOf(env, t)) == t;
  }

  // ---------------------------------------------------------------- amounts of a transaction

  function Paid(outputs: seq<Output>): nat {
    if outputs == [] then 0 else Paid(outputs[..|outputs| - 1]) + outputs[|outputs| - 1].amount
  }

  /** What one address receives, repeated outputs included. */
  function PaidTo(outputs: seq<Output>, a: Address): nat {
    if outputs == [] then 0
    else PaidTo(outputs[..|outputs| - 1], a)
         + if outputs[|outputs| - 1].address == a then outputs[|outputs| - 1].amount else 0
  }

  /** The exact cost of a transaction: outputs and fee. */
  function Cost(tx: Transaction): nat {
    Paid(tx.info.outputs) + tx.info.fee
  }

  function TotalOutput(tx: Transaction): u32 {
    Wrap(Cost(tx))
  }

  function Debit(tx: Transaction, a: Address): u32 {
    if a == tx.info.from then TotalOutput(tx) else 0
  }

  // ---------------------------------------------------------------- one transaction

  predicate Contains(env: Env, txs: seq<TxEntry>, tx: Transaction) {
    exists i :: 0 <= i < |txs| && txs[i].id == IdOf(env, tx)
  }

  /** Panic: the sender has no balance entry, and the program indexes its list at -1. */
  datatype Verdict = Accepted(book: Book) | Rejected(book: Book) | Panic

  /** Pays the outputs one after the other. */
  function Credit(balances: seq<Entry>, outputs: seq<Output>): seq<Entry> {
    if outputs == [] then balances
    else
      var o := outputs[|outputs| - 1];
      var done := Credit(balances, outputs[..|outputs| - 1]);
      Put(done, o.address, Wrap(Get(done, o.address) + o.amount))
  }

  function WithNonceEntry(nonces: seq<Entry>, a: Address): seq<Entry> {
    if Has(nonces, a) then nonces else nonces + [Entry(a, 0)]
  }

  function Apply(env: Env, book: Book, tx: Transaction): Verdict {
    var from := tx.info.from;
    if Contains(env, book.txs, tx) || tx.sig.None? || !Verified(env, tx)
       || TotalOutput(tx) > Get(book.balances, from) then
      Rejected(book)
    else
      var nonces := WithNonceEntry(book.nonces, from);
      if Get(nonces, from) != tx.info.nonce then Rejected(book.(nonces := nonces))
      else if !Has(book.balances, from) then Panic
      else
        var debited := Put(book.balances, from, Wrap(Get(book.balances, from) - TotalOutput(tx)));
        Accepted(Book(book.txs + [TxEntry(IdOf(env, tx), tx)],
                      Credit(debited, tx.info.outputs),
                      Put(nonces, from, Wrap(Get(nonces, from) + 1))))
  }

  lemma WithNonceEntryGet(nonces: seq<Entry>, from: Address, a: Address)
    ensures Get(WithNonceEntry(nonces, from), a) == Get(nonces, a)
  {
    PutGet(nonces, from, 0, a);
  }

  lemma {:induction false} CreditGet(balances: seq<Entry>, outputs: seq<Output>, a: Address)
    ensures Get(Credit(balances, outputs), a) == Wrap(Get(balances, a) + PaidTo(outputs, a))
    ensures Has(balances, a) ==> Has(Credit(balances, outputs), a)
  {
    hide Get;
    hide Put;
    hide Has;
    hide Wrap;
    if outputs != [] {
      var o := outputs[|outputs| - 1];
      var done := Credit(balances, outputs[..|outputs| - 1]);
      CreditGet(balances, outputs[..|outputs| - 1], a);
      PutGet(done, o.address, Wrap(Get(done, o.address) + o.amount), a);
      WrapSum(Get(balances, a) + PaidTo(outputs[..|outputs| - 1], a), o.amount);
    } else {
      WrapIs(Get(balances, a));
    }
  }

  /** Exactly which transactions a block takes. */
  predicate Acceptable(env: Env, book: Book, tx: Transaction) {
    && !Contains(env, book.txs, tx)
    && tx.sig.Some? && Verified(env, tx)
    && TotalOutput(tx) <= Get(book.balances, tx.info.from)
    && tx.info.nonce == Get(book.nonces, tx.info.from)
  }

  /** The effect of an accepted transaction on every address at once: a debit of the sender and a
      credit of everything the address is paid, self-payments and repeated outputs included. */
  ghost predicate Effect(env: Env, old_: Book, tx: Transaction, new_: Book) {
    && new_.txs == old_.txs + [TxEntry(IdOf(env, tx), tx)]
    && (forall a :: Get(new_.balances, a)
                    == Wrap(Get(old_.balances, a) - Debit(tx, a) + PaidTo(tx.info.outputs, a)))
    && (forall a :: Get(new_.nonces, a)
                    == if a == tx.info.from then Wrap(Get(old_.nonces, a) + 1) else Get(old_.nonces, a))
    && (forall a :: Has(old_.balances, a) ==> Has(new_.balances, a))
  }

  /** The association lists behave as total maps with default 0: acceptance is one condition on the
      map view, an accepted transaction has the closed-form effect, a rejected one changes nothing
      the map view can see, and a panic needs a costless transaction of an unknown sender. */
  lemma ApplyRefinesMaps(env: Env, book: Book, tx: Transaction)
    ensures Apply(env, book, tx).Accepted?
            <==> Acceptable(env, book, tx) && Has(book.balances, tx.info.from)
    ensures Apply(env, book, tx).Panic?
            <==> Acceptable(env, book, tx) && !Has(book.balances, tx.info.from)
    ensures Apply(env, book, tx).Panic? ==> TotalOutput(tx) == 0
    ensures Apply(env, book, tx).Accepted? ==> Effect(env, book, tx, Apply(env, book, tx).book)
    ensures Apply(env, book, tx).Rejected? ==>
              var after := Apply(env, book, tx).book;
              && after.txs == book.txs && after.balances == book.balances
              && forall a :: Get(after.nonces, a) == Get(book.nonces, a)
  {
    hide Get;
    hide Put;
    hide Has;
    hide Credit;
    hide PaidTo;
    hide Paid;
    var from := tx.info.from;
    var nonces := WithNonceEntry(book.nonces, from);
    forall a ensures Get(nonces, a) == Get(book.nonces, a) {
      WithNonceEntryGet(book.nonces, from, a);
    }
    AbsentIsZero(book.balances, from);
    if Acceptable(env, book, tx) && Has(book.balances, from) {
      var left := Wrap(Get(book.balances, from) - TotalOutput(tx));
      var after := Apply(env, book, tx).book;
      forall a
        ensures Get(after.balances, a) == Wrap(Get(book.balances, a) - Debit(tx, a) + PaidTo(tx.info.outputs, a))
        ensures Has(book.balances, a) ==> Has(after.balances, a)
        ensures Get(after.nonces, a) == if a == from then Wrap(Get(book.nonces, a) + 1) else Get(book.nonces, a)
      {
        PutGet(book.balances, from, left, a);
        CreditGet(Put(book.balances, from, left), tx.info.outputs, a);
        PutGet(nonces, from, Wrap(Get(nonces, from) + 1), a);
      }
    }
  }

  /** The conditions spelled out: no listed id is the transaction's, it is signed and the verifier accepts it,
      its sender is listed with at least the 32-bit cost, and its nonce is the sender's next one. */
  lemma AcceptsIff(env: Env, book: Book, tx: Transaction)
    ensures Apply(env, book, tx).Accepted? <==>
              && (forall e :: e in book.txs ==> e.id != env.txHash(tx))
              && tx.sig.Some? && env.verifier(tx)
              && (Paid(tx.info.outputs) + tx.info.fee) % 0x1_0000_0000 <= Get(book.balances, tx.info.from)
              && tx.info.nonce == Get(book.nonces, tx.info.from)
              && Has(book.balances, tx.info.from)
  {
    hide Apply;
    hide Get;
    hide Has;
    hide Paid;
    ApplyRefinesMaps(env, book, tx);
    assert Contains(env, book.txs, tx) <==> exists e :: e in book.txs && e.id == env.txHash(tx);
  }

  /** An unsigned transaction, and one whose signature the verifier does not accept, leave every book as it is. */
  lemma ForgedIsRefused(env: Env, book: Book, tx: Transaction)
    requires tx.sig.None? || !env.verifier(tx)
    ensures Apply(env, book, tx) == Rejected(book)
  {
    hide Get;
    hide Put;
    hide Credit;
  }

  ghost predicate AllSigned(env: Env, txs: seq<TxEntry>) {
    forall e :: e in txs ==> e.tx.sig.Some? && env.verifier(e.tx)
  }

  /** So every transaction of a replayed block carries a signature that the verifier accepts. */
  lemma {:induction false} ReplayIsSigned(env: Env, book: Book, txs: seq<TxEntry>)
    requires Replay(env, book, txs).Accepted?
    ensures AllSigned(env, txs)
    decreases |txs|
  {
    hide Apply;
    if txs != [] {
      if txs[0].tx.sig.None? || !env.verifier(txs[0].tx) { ForgedIsRefused(env, book, txs[0].tx); }
      ReplayIsSigned(env, Apply(env, book, txs[0].tx).book, txs[1..]);
      assert txs == [txs[0]] + txs[1..];
    }
  }

  /** A concrete transaction that crashes the program: unknown sender, nothing to pay. */
  lemma PanicIsReachable(env: Env, tx: Transaction)
    requires tx == Transaction(TransactionInfo("nobody", 0, "", 0, [], ""), Some("")) && Verified(env, tx)
    ensures Apply(env, Book([], [], []), tx) == Panic
  {
    ApplyRefinesMaps(env, Book([], [], []), tx);
  }

  // ---------------------------------------------------------------- conservation, one transaction

  /** The transaction's cost fits in 32 bits, and unless its sender is one of the payers listed, it costs
      something. */
  predicate Sound(payers: seq<Entry>, tx: Transaction) {
    Cost(tx) < 0x1_0000_0000 && (Cost(tx) > 0 || Has(payers, tx.info.from))
  }

  lemma {:induction false} CreditTotal(balances: seq<Entry>, outputs: seq<Output>)
    ensures Congruent(Total(Credit(balances, outputs)), Total(balances) + Paid(outputs))
    ensures Total(balances) + Paid(outputs) < 0x1_0000_0000
            ==> Total(Credit(balances, outputs)) == Total(balances) + Paid(outputs)
  {
    hide Get;
    hide Put;
    hide Wrap;
    hide Congruent;
    hide Total;
    if outputs != [] {
      var o := outputs[|outputs| - 1];
      var done := Credit(balances, outputs[..|outputs| - 1]);
      CreditTotal(balances, outputs[..|outputs| - 1]);
      var had := Get(done, o.address);
      PutTotal(done, o.address, Wrap(had + o.amount));
      WrapIs(had + o.amount);
      CongruentMove(Total(done), Total(balances) + Paid(outputs[..|outputs| - 1]), had, had + o.amount);
    } else {
      CongruentSelf(Total(balances));
    }
  }

  lemma PaidToLePaid(outputs: seq<Output>, a: Address)
    ensures PaidTo(outputs, a) <= Paid(outputs)
  {
  }

  /** An accepted transaction burns its fee and conserves the rest, modulo 2^32. */
  lemma ApplyConserves(env: Env, book: Book, tx: Transaction)
    requires Apply(env, book, tx).Accepted?
    ensures Congruent(Total(Apply(env, book, tx).book.balances), Total(book.balances) - tx.info.fee)
    ensures Total(book.balances) < 0x1_0000_0000 && Cost(tx) < 0x1_0000_0000
            ==> Total(Apply(env, book, tx).book.balances) == Total(book.balances) - tx.info.fee
  {
    hide Get;
    hide Put;
    hide Has;
    hide Credit;
    hide Paid;
    hide Contains;
    hide Total;
    hide WithNonceEntry;
    hide Wrap;
    hide Congruent;
    var from := tx.info.from;
    var had, cost := Get(book.balances, from), TotalOutput(tx);
    var debited := Put(book.balances, from, Wrap(had - cost));
    PutTotal(book.balances, from, Wrap(had - cost));
    CreditTotal(debited, tx.info.outputs);
    WrapIs(had - cost);
    WrapIs(Cost(tx));
    DebitedTotal(Total(book.balances), had, cost, Cost(tx));
    CongruentAdd(Total(debited), Total(book.balances) - Cost(tx), Paid(tx.info.outputs));
    CongruentTrans(Total(Credit(debited, tx.info.outputs)), Total(debited) + Paid(tx.info.outputs),
                   Total(book.balances) - tx.info.fee);
  }

  lemma DebitedTotal(total: int, had: u32, cost: u32, exact: int)
    requires cost <= had && cost == Wrap(exact)
    ensures Congruent(total - had + Wrap(had - cost), total - exact)
  {
  }

  /** Without overflow the effect on every address is exact. */
  lemma ApplyIsExact(env: Env, book: Book, tx: Transaction, a: Address)
    requires Apply(env, book, tx).Accepted?
    requires Total(book.balances) < 0x1_0000_0000 && Cost(tx) < 0x1_0000_0000
    ensures Get(Apply(env, book, tx).book.balances, a)
            == Get(book.balances, a) - Debit(tx, a) + PaidTo(tx.info.outputs, a)
  {
    hide Get;
    hide Put;
    hide Has;
    hide Credit;
    hide Paid;
    hide PaidTo;
    hide Contains;
    hide Total;
    hide WithNonceEntry;
    var from := tx.info.from;
    var left := Wrap(Get(book.balances, from) - TotalOutput(tx));
    var debited := Put(book.balances, from, left);
    ApplyRefinesMaps(env, book, tx);
    PaidToLePaid(tx.info.outputs, a);
    PutTotal(book.balances, from, left);
    PutTotal(debited, a, 0);
    PutGet(book.balances, from, left, a);
  }

  // ---------------------------------------------------------------- replaying a block

  function Replay(env: Env, book: Book, txs: seq<TxEntry>): Verdict
    decreases |txs|
  {
    if txs == [] then Accepted(book)
    else
      match Apply(env, book, txs[0].tx)
      case Accepted(next) => Replay(env, next, txs[1..])
      case stop => stop
  }

  /** The parent's balances after its own reward; a block does not pay itself. */
  function Rewarded(parent: BlockVal): seq<Entry> {
    var a := parent.meta.rewardAddr;
    if a == "" then parent.book.balances
    else Put(parent.book.balances, a, Wrap(Get(parent.book.balances, a) + parent.meta.coinbase))
  }

  function Reward(parent: BlockVal, a: Address): u32 {
    if a != "" && a == parent.meta.rewardAddr then parent.meta.coinbase else 0
  }

  function Base(parent: BlockVal): Book {
    Book([], Rewarded(parent), parent.book.nonces)
  }

  function Rerun(env: Env, txs: seq<TxEntry>, parent: BlockVal): Verdict {
    Replay(env, Base(parent), txs)
  }

  /** The same transactions under their own ids. */
  function Canonical(env: Env, txs: seq<TxEntry>): (r: seq<TxEntry>)
    ensures |r| == |txs|
  {
    seq(|txs|, i requires 0 <= i < |txs| => TxEntry(IdOf(env, txs[i].tx), txs[i].tx))
  }

  function Fees(txs: seq<TxEntry>): nat {
    if txs == [] then 0 else txs[0].tx.info.fee + Fees(txs[1..])
  }

  predicate AllSound(payers: seq<Entry>, txs: seq<TxEntry>) {
    forall e :: e in txs ==> Sound(payers, e.tx)
  }

  predicate NoneOverflows(txs: seq<TxEntry>) {
    forall e :: e in txs ==> Cost(e.tx) < 0x1_0000_0000
  }

  lemma {:induction false} ReplayAppend(env: Env, book: Book, txs: seq<TxEntry>, e: TxEntry)
    ensures Replay(env, book, txs + [e])
            == match Replay(env, book, txs) case Accepted(b) => Apply(env, b, e.tx) case v => v
    decreases |txs|
  {
    if txs == [] {
      assert txs + [e] == [e];
      assert [e][1..] == [];
    } else {
      assert (txs + [e])[1..] == txs[1..] + [e];
      match Apply(env, book, txs[0].tx)
      case Accepted(next) => ReplayAppend(env, next, txs[1..], e);
      case _ =>
    }
  }

  /** Everybody listed among the payers has a balance entry. */
  ghost predicate Lists(payers: seq<Entry>, balances: seq<Entry>) {
    forall a :: Has(payers, a) ==> Has(balances, a)
  }

  /** Balance entries never disappear. */
  lemma {:induction false} ReplayKeepsEntries(env: Env, book: Book, txs: seq<TxEntry>, payers: seq<Entry>)
    requires Replay(env, book, txs).Accepted? && Lists(payers, book.balances)
    ensures Lists(payers, Replay(env, book, txs).book.balances)
    decreases |txs|
  {
    hide Apply;
    hide Has;
    hide Get;
    hide Acceptable;
    if txs != [] {
      ApplyRefinesMaps(env, book, txs[0].tx);
      ReplayKeepsEntries(env, Apply(env, book, txs[0].tx).book, txs[1..], payers);
    }
  }

  lemma RerunKeepsEntries(env: Env, txs: seq<TxEntry>, parent: BlockVal, payers: seq<Entry>)
    requires Rerun(env, txs, parent).Accepted? && Lists(payers, parent.book.balances)
    ensures Lists(payers, Rerun(env, txs, parent).book.balances)
  {
    hide Has;
    hide Replay;
    hide Get;
    RewardedIs(parent);
    ReplayKeepsEntries(env, Base(parent), txs, payers);
  }

  /** A replay re-enters every transaction in order under its recomputed id. */
  lemma {:induction false} ReplayIsCanonical(env: Env, book: Book, txs: seq<TxEntry>)
    requires Replay(env, book, txs).Accepted?
    ensures Replay(env, book, txs).book.txs == book.txs + Canonical(env, txs)
    decreases |txs|
  {
    if txs != [] {
      var next := Apply(env, book, txs[0].tx).book;
      ReplayIsCanonical(env, next, txs[1..]);
      assert Canonical(env, txs) == [TxEntry(IdOf(env, txs[0].tx), txs[0].tx)] + Canonical(env, txs[1..]);
    }
  }

  /** Ids carried by a message are irrelevant to a replay. */
  lemma {:induction false} ReplayIgnoresIds(env: Env, book: Book, txs: seq<TxEntry>, us: seq<TxEntry>)
    requires |txs| == |us| && forall i :: 0 <= i < |txs| ==> txs[i].tx == us[i].tx
    ensures Replay(env, book, txs) == Replay(env, book, us)
    decreases |txs|
  {
    if txs != [] {
      match Apply(env, book, txs[0].tx)
      case Accepted(next) => ReplayIgnoresIds(env, next, txs[1..], us[1..]);
      case _ =>
    }
  }

  /** Running Rerun a second time on its own result changes nothing. */
  lemma RerunIsIdempotent(env: Env, txs: seq<TxEntry>, parent: BlockVal)
    requires Rerun(env, txs, parent).Accepted?
    ensures var r := Rerun(env, txs, parent); r.book.txs == Canonical(env, txs)
                                              && Rerun(env, r.book.txs, parent) == r
  {
    ReplayIsCanonical(env, Base(parent), txs);
    assert [] + Canonical(env, txs) == Canonical(env, txs);
    ReplayIgnoresIds(env, Base(parent), txs, Canonical(env, txs));
  }

  lemma {:induction false} ReplayConserves(env: Env, book: Book, txs: seq<TxEntry>)
    requires Replay(env, book, txs).Accepted?
    ensures Congruent(Total(Replay(env, book, txs).book.balances), Total(book.balances) - Fees(txs))
    ensures Total(book.balances) < 0x1_0000_0000 && NoneOverflows(txs)
            ==> Total(Replay(env, book, txs).book.balances) == Total(book.balances) - Fees(txs)
    decreases |txs|
  {
    hide Apply;
    hide Total;
    hide Cost;
    if txs != [] {
      var next := Apply(env, book, txs[0].tx).book;
      ApplyConserves(env, book, txs[0].tx);
      ReplayConserves(env, next, txs[1..]);
      if Total(book.balances) < 0x1_0000_0000 && NoneOverflows(txs) {
        assert txs[0] in txs;
        assert forall e :: e in txs[1..] ==> e in txs;
      }
    }
  }

  lemma RewardedIs(parent: BlockVal)
    ensures forall a :: Get(Rewarded(parent), a) == Wrap(Get(parent.book.balances, a) + Reward(parent, a))
    ensures forall a :: Has(parent.book.balances, a) ==> Has(Rewarded(parent), a)
    ensures Congruent(Total(Rewarded(parent)), Total(parent.book.balances) + Reward(parent, parent.meta.rewardAddr))
    ensures Total(parent.book.balances) + Reward(parent, parent.meta.rewardAddr) < 0x1_0000_0000 ==>
              Total(Rewarded(parent)) == Total(parent.book.balances) + Reward(parent, parent.meta.rewardAddr)
  {
    hide Get;
    hide Has;
    hide Put;
    hide Total;
    hide Wrap;
    hide Congruent;
    var r, old_ := parent.meta.rewardAddr, parent.book.balances;
    var had := Get(old_, r);
    CongruentSelf(Total(old_));
    if r != "" {
      PutTotal(old_, r, Wrap(had + parent.meta.coinbase));
      WrapIs(had + parent.meta.coinbase);
      CongruentMove(Total(old_), Total(old_), had, had + parent.meta.coinbase);
    }
    forall a
      ensures Get(Rewarded(parent), a) == Wrap(Get(old_, a) + Reward(parent, a))
      ensures Has(old_, a) ==> Has(Rewarded(parent), a)
    {
      WrapIs(Get(old_, a));
      if r != "" { PutGet(old_, r, Wrap(had + parent.meta.coinbase), a); }
    }
  }

  // ---------------------------------------------------------------- no name is listed twice

  ghost predicate ListsOnce(book: Book) {
    Distinct(book.balances) && Distinct(book.nonces)
  }

  lemma {:induction false} CreditDistinct(balances: seq<Entry>, outputs: seq<Output>)
    requires Distinct(balances)
    ensures Distinct(Credit(balances, outputs))
  {
    hide Distinct;
    hide Put;
    hide Get;
    hide Wrap;
    if outputs != [] {
      var o := outputs[|outputs| - 1];
      var done := Credit(balances, outputs[..|outputs| - 1]);
      CreditDistinct(balances, outputs[..|outputs| - 1]);
      PutDistinct(done, o.address, Wrap(Get(done, o.address) + o.amount));
    }
  }

  /** A transaction, accepted or not, leaves lists that name nobody twice. */
  lemma ApplyListsOnce(env: Env, book: Book, tx: Transaction)
    requires ListsOnce(book) && !Apply(env, book, tx).Panic?
    ensures ListsOnce(Apply(env, book, tx).book)
  {
    hide Distinct;
    hide Put;
    hide Get;
    hide Wrap;
    hide Credit;
    hide Contains;
    hide TotalOutput;
    var from := tx.info.from;
    var nonces := WithNonceEntry(book.nonces, from);
    var left := Wrap(Get(book.balances, from) - TotalOutput(tx));
    WithNonceEntryIsPut(book.nonces, from);
    PutDistinct(book.nonces, from, 0);
    PutDistinct(nonces, from, Wrap(Get(nonces, from) + 1));
    PutDistinct(book.balances, from, left);
    CreditDistinct(Put(book.balances, from, left), tx.info.outputs);
  }

  lemma WithNonceEntryIsPut(nonces: seq<Entry>, a: Address)
    ensures WithNonceEntry(nonces, a) == nonces || WithNonceEntry(nonces, a) == Put(nonces, a, 0)
  {
  }

  lemma {:induction false} ReplayListsOnce(env: Env, book: Book, txs: seq<TxEntry>)
    requires ListsOnce(book) && Replay(env, book, txs).Accepted?
    ensures ListsOnce(Replay(env, book, txs).book)
    decreases |txs|
  {
    hide Apply;
    hide ListsOnce;
    if txs != [] {
      ApplyListsOnce(env, book, txs[0].tx);
      ReplayListsOnce(env, Apply(env, book, txs[0].tx).book, txs[1..]);
    }
  }

  lemma RerunListsOnce(env: Env, txs: seq<TxEntry>, parent: BlockVal)
    requires ListsOnce(parent.book) && Rerun(env, txs, parent).Accepted?
    ensures ListsOnce(Rerun(env, txs, parent).book)
  {
    hide Distinct;
    hide Put;
    hide Get;
    hide Wrap;
    hide Replay;
    var r, had := parent.meta.rewardAddr, parent.book.balances;
    PutDistinct(had, r, Wrap(Get(had, r) + parent.meta.coinbase));
    ReplayListsOnce(env, Base(parent), txs);
  }

  // ---------------------------------------------------------------- nonces along a replay

  /** The nonces of a's transactions, in order. */
  function NoncesOf(txs: seq<TxEntry>, a: Address): seq<u32> {
    if txs == [] then []
    else NoncesOf(txs[..|txs| - 1], a)
         + if txs[|txs| - 1].tx.info.from == a then [txs[|txs| - 1].tx.info.nonce] else []
  }

  lemma {:induction false} NoncesOfConcat(s: seq<TxEntry>, t: seq<TxEntry>, a: Address)
    ensures NoncesOf(s + t, a) == NoncesOf(s, a) + NoncesOf(t, a)
  {
    if t == [] {
      assert s + t == s;
    } else {
      NoncesOfConcat(s, t[..|t| - 1], a);
      assert (s + t)[..|s + t| - 1] == s + t[..|t| - 1];
    }
  }

  /** ns counts up from k, wrapping at 2^32. */
  predicate CountsUp(ns: seq<u32>, k: u32) {
    forall i :: 0 <= i < |ns| ==> ns[i] == Wrap(k + i)
  }

  lemma CountsUpConcat(s: seq<u32>, t: seq<u32>, k: u32)
    requires CountsUp(s, k) && CountsUp(t, Wrap(k + |s|))
    ensures CountsUp(s + t, k) && Wrap(Wrap(k + |s|) + |t|) == Wrap(k + |s + t|)
  {
    hide Wrap;
    forall i | 0 <= i < |s + t| ensures (s + t)[i] == Wrap(k + i) {
      if i >= |s| {
        assert (s + t)[i] == t[i - |s|];
        WrapSum(k + |s|, i - |s|);
      }
    }
    WrapSum(k + |s|, |t|);
  }

  lemma NoNonces(a: Address, k: u32)
    ensures NoncesOf([], a) == [] && CountsUp([], k) && Wrap(k + 0) == k
  {
  }

  lemma NonceStep(env: Env, book: Book, tx: Transaction, a: Address)
    requires Apply(env, book, tx).Accepted?
    ensures var one: seq<u32> := if tx.info.from == a then [tx.info.nonce] else [];
            && CountsUp(one, Get(book.nonces, a))
            && Get(Apply(env, book, tx).book.nonces, a) == Wrap(Get(book.nonces, a) + |one|)
  {
    hide Get;
    hide Apply;
    hide Contains;
    ApplyRefinesMaps(env, book, tx);
  }

  /** A replay accepts a sender's transactions only with consecutive nonces. */
  lemma {:induction false} ReplayCountsNonces(env: Env, book: Book, txs: seq<TxEntry>, a: Address)
    requires Replay(env, book, txs).Accepted?
    ensures CountsUp(NoncesOf(txs, a), Get(book.nonces, a))
    ensures Get(Replay(env, book, txs).book.nonces, a) == Wrap(Get(book.nonces, a) + |NoncesOf(txs, a)|)
    decreases |txs|
  {
    hide Apply;
    hide Get;
    hide CountsUp;
    hide Wrap;
    hide Acceptable;
    NoNonces(a, Get(book.nonces, a));
    if txs != [] {
      var front, e := txs[..|txs| - 1], txs[|txs| - 1];
      assert txs == front + [e];
      ReplayAppend(env, book, front, e);
      ReplayCountsNonces(env, book, front, a);
      NonceStep(env, Replay(env, book, front).book, e.tx, a);
      var one := if e.tx.info.from == a then [e.tx.info.nonce] else [];
      CountsUpConcat(NoncesOf(front, a), one, Get(book.nonces, a));
    }
  }
}
