/** The block object. Its three lists are slices, so that AddTransaction writes into backing arrays, and whether
    two blocks share one matters. */
module Blocks {
  import opened Prelude
  import opened Ledger
  import opened Mining
  import opened Slices

  /** The running sum of outputs and fee, in 32 bits. */
  method SumOutputs(tx: Transaction) returns (amount: u32)
    ensures amount == TotalOutput(tx)
  {
    amount := 0;
    var i := 0;
    while i < |tx.info.outputs|
      invariant 0 <= i <= |tx.info.outputs|
      invariant amount == Wrap(Paid(tx.info.outputs[..i]))
    {
      assert tx.info.outputs[..i + 1][..i] == tx.info.outputs[..i];
      WrapSum(Paid(tx.info.outputs[..i]), tx.info.outputs[i].amount);
      amount := Wrap(amount + tx.info.outputs[i].amount);
      i := i + 1;
    }
    assert tx.info.outputs[..i] == tx.info.outputs;
    WrapSum(Paid(tx.info.outputs), tx.info.fee);
    amount := Wrap(amount + tx.info.fee);
  }

  /** First position of a name in an association list, or -1. */
  method FindIndex(xs: Slice<Entry>, id: string) returns (index: int)
    requires Fits(xs)
    ensures index == Index(Items(xs), id)
  {
    index := 0;
    while index < xs.len
      invariant 0 <= index <= xs.len
      invariant forall j :: 0 <= j < index ==> Items(xs)[j].id != id
    {
      if xs.arr[index].id == id {
        IndexIs(Items(xs), id, index);
        return;
      }
      index := index + 1;
    }
    IndexIs(Items(xs), id, -1);
    index := -1;
  }

  /** Overwrites the entry of a name in place, or appends one. */
  method PutEntry(xs: Slice<Entry>, id: string, amount: u32) returns (ys: Slice<Entry>)
    requires Fits(xs)
    modifies xs.arr
    ensures Fits(ys) && (ys.arr == xs.arr || fresh(ys.arr))
    ensures Items(ys) == Put(old(Items(xs)), id, amount)
  {
    var index := FindIndex(xs, id);
    IndexFinds(Items(xs), id);
    if index == -1 {
      ys := Append(xs, Entry(id, amount));
    } else {
      ys := xs;
      Write(xs, index, Entry(xs.arr[index].id, amount));
    }
  }

  /** The parent's lists over arrays of their own, or empty ones. */
  method CopiedLists(prev: Block?) returns (balances: Slice<Entry>, nonces: Slice<Entry>)
    requires prev != null ==> prev.Valid()
    ensures Fits(balances) && Fits(nonces) && fresh(balances.arr) && fresh(nonces.arr) && balances.arr != nonces.arr
    ensures Items(balances) == if prev == null then [] else Items(prev.balances)
    ensures Items(nonces) == if prev == null then [] else Items(prev.nextNonce)
  {
    if prev == null {
      balances := Make();
      nonces := Make();
    } else {
      balances := Clone(prev.balances);
      nonces := Clone(prev.nextNonce);
    }
  }

  /** What became of an offered transaction. Crash: the program indexes the balances at -1. */
  datatype Outcome = Taken | Refused | Crash

  function OutcomeOf(v: Verdict): Outcome {
    match v
    case Accepted(_) => Taken
    case Rejected(_) => Refused
    case Panic => Crash
  }

  class Block {
    var prevBlockHash: Hash
    var target: nat
    var proof: u32
    var balances: Slice<Entry>
    var nextNonce: Slice<Entry>
    var transactions: Slice<TxEntry>
    var chainLength: u32
    var timestamp: int
    var rewardAddr: Address
    var coinbaseReward: u32

    /** The backing arrays. */
    ghost function Arrays(): set<object>
      reads this
    {
      {balances.arr, nextNonce.arr, transactions.arr}
    }

    ghost predicate Valid()
      reads this
    {
      && Fits(balances) && Fits(nextNonce) && Fits(transactions)
      && balances.arr != nextNonce.arr
    }

    function Val(): BlockVal
      reads this, balances.arr, nextNonce.arr, transactions.arr
    {
      BlockVal(Meta(prevBlockHash, target, proof, chainLength, timestamp, rewardAddr, coinbaseReward),
               Book(Items(transactions), Items(balances), Items(nextNonce)))
    }

    /** Copies the parent's lists into arrays of its own; a nil parent makes a genesis block. */
    constructor New(env: Env, rewardAddr: Address, prev: Block?, target: nat, coinbaseReward: u32, now: int)
      requires prev != null ==> prev.Valid()
      ensures Valid() && fresh(Arrays())
      ensures prev == null ==>
                Val() == BlockVal(Meta("", target, 0, 0, now, rewardAddr, coinbaseReward), Book([], [], []))
      ensures prev != null ==> Val() == NewBlock(env, rewardAddr, prev.Val(), target, coinbaseReward, now)
      ensures this.rewardAddr == rewardAddr && this.coinbaseReward == coinbaseReward
      ensures this.target == target && this.proof == 0 && this.timestamp == now
    {
      hide HashOf;
      hide Wrap;
      var prevHash, height: u32 := "", 0;
      if prev != null {
        prevHash, height := HashOf(env, prev.Val()), Wrap(prev.chainLength + 1);
      }
      var copied, numbered := CopiedLists(prev);
      var txs := Make();
      this.prevBlockHash, this.target, this.proof := prevHash, target, 0;
      this.balances, this.nextNonce, this.transactions := copied, numbered, txs;
      this.chainLength, this.timestamp := height, now;
      this.rewardAddr, this.coinbaseReward := rewardAddr, coinbaseReward;
    }

    /** A block decoded from a message, over arrays of its own. */
    constructor Decoded(b: BlockVal)
      ensures Valid() && fresh(Arrays()) && Val() == b
    {
      this.prevBlockHash := b.meta.prev;
      this.target := b.meta.target;
      this.proof := b.meta.proof;
      var copied := FromSeq(b.book.balances);
      var numbered := FromSeq(b.book.nonces);
      var txs := FromSeq(b.book.txs);
      this.balances, this.nextNonce, this.transactions := copied, numbered, txs;
      this.chainLength := b.meta.height;
      this.timestamp := b.meta.timestamp;
      this.rewardAddr := b.meta.rewardAddr;
      this.coinbaseReward := b.meta.coinbase;
    }

    /** A block passed by value: the headers are copied, the arrays are shared. */
    constructor Share(b: Block)
      requires b.Valid()
      ensures Valid() && Val() == b.Val()
      ensures balances == b.balances && nextNonce == b.nextNonce && transactions == b.transactions
    {
      this.prevBlockHash := b.prevBlockHash;
      this.target := b.target;
      this.proof := b.proof;
      this.balances := b.balances;
      this.nextNonce := b.nextNonce;
      this.transactions := b.transactions;
      this.chainLength := b.chainLength;
      this.timestamp := b.timestamp;
      this.rewardAddr := b.rewardAddr;
      this.coinbaseReward := b.coinbaseReward;
    }

    method FindTransactionIndex(id: TxId) returns (index: int)
      requires Valid()
      ensures -1 <= index < transactions.len
      ensures index >= 0 ==> Items(transactions)[index].id == id
      ensures forall j :: 0 <= j < (if index >= 0 then index else transactions.len) ==> Items(transactions)[j].id != id
    {
      index := 0;
      while index < transactions.len
        invariant 0 <= index <= transactions.len
        invariant forall j :: 0 <= j < index ==> Items(transactions)[j].id != id
      {
        if transactions.arr[index].id == id { return; }
        index := index + 1;
      }
      index := -1;
    }

    method Contains(env: Env, tx: Transaction) returns (found: bool)
      requires Valid()
      ensures found <==> Ledger.Contains(env, Items(transactions), tx)
    {
      var index := FindTransactionIndex(IdOf(env, tx));
      found := index > -1;
    }

    method BalanceOf(address: Address) returns (balance: u32)
      requires Valid()
      ensures balance == Get(Items(balances), address)
    {
      var index := FindIndex(balances, address);
      if index > -1 { balance := balances.arr[index].amount; } else { balance := 0; }
    }

    method SufficientFund(tx: Transaction) returns (enough: bool)
      requires Valid()
      ensures enough <==> TotalOutput(tx) <= Get(Items(balances), tx.info.from)
    {
      var total := SumOutputs(tx);
      var balance := BalanceOf(tx.info.from);
      enough := total <= balance;
    }

    /** Pays the outputs in place, one after the other. */
    method PayOutputs(outputs: seq<Output>)
      requires Valid()
      modifies this`balances, balances.arr
      ensures Valid() && (balances.arr == old(balances.arr) || fresh(balances.arr))
      ensures Items(balances) == Credit(old(Items(balances)), outputs)
    {
      hide Get;
      hide Put;
      var i := 0;
      while i < |outputs|
        invariant 0 <= i <= |outputs|
        invariant Valid() && (balances.arr == old(balances.arr) || fresh(balances.arr))
        invariant Items(balances) == Credit(old(Items(balances)), outputs[..i])
      {
        var o := outputs[i];
        assert outputs[..i + 1][..i] == outputs[..i];
        Deposit(o.address, o.amount);
        i := i + 1;
      }
      assert outputs[..i] == outputs;
    }

    /** Adds an amount to one balance, appending an entry for a new address. */
    method Deposit(address: Address, amount: u32)
      requires Valid()
      modifies this`balances, balances.arr
      ensures Valid() && (balances.arr == old(balances.arr) || fresh(balances.arr))
      ensures Items(balances) == Put(old(Items(balances)), address, Wrap(Get(old(Items(balances)), address) + amount))
    {
      hide Put;
      hide Wrap;
      var oldBalance := BalanceOf(address);
      balances := PutEntry(balances, address, Wrap(oldBalance + amount));
    }

    /** Position of the sender's nonce entry, appended as 0 if there is none. */
    method NonceEntry(from: Address) returns (index: int)
      requires Valid()
      modifies this`nextNonce, nextNonce.arr
      ensures Valid() && (nextNonce.arr == old(nextNonce.arr) || fresh(nextNonce.arr))
      ensures Items(nextNonce) == WithNonceEntry(old(Items(nextNonce)), from)
      ensures index == Index(Items(nextNonce), from) >= 0
    {
      index := FindIndex(nextNonce, from);
      if index == -1 {
        AppendedAtEnd(Items(nextNonce), from);
        nextNonce := Append(nextNonce, Entry(from, 0));
        index := nextNonce.len - 1;
      }
    }

    method SetNonce(index: int, from: Address, nonce: u32)
      requires Valid() && index == Index(Items(nextNonce), from) >= 0
      modifies nextNonce.arr
      ensures Items(nextNonce) == Put(old(Items(nextNonce)), from, nonce)
    {
      IndexFinds(Items(nextNonce), from);
      Write(nextNonce, index, Entry(nextNonce.arr[index].id, nonce));
    }

    /** Takes the transaction's cost from its sender; false where the program indexes at -1. */
    method Withdraw(tx: Transaction) returns (found: bool)
      requires Valid()
      modifies balances.arr
      ensures found <==> Has(old(Items(balances)), tx.info.from)
      ensures found ==> Items(balances) == Put(old(Items(balances)), tx.info.from,
                                               Wrap(Get(old(Items(balances)), tx.info.from) - TotalOutput(tx)))
    {
      var senderBalance := BalanceOf(tx.info.from);
      var senderIndex := FindIndex(balances, tx.info.from);
      var total := SumOutputs(tx);
      IndexFinds(Items(balances), tx.info.from);
      found := senderIndex > -1;
      if found {
        var left: int := senderBalance as int - total as int;
        Write(balances, senderIndex, Entry(balances.arr[senderIndex].id, Wrap(left)));
      }
    }

    /** Validates one transaction and applies it to the lists in place: nothing but the block's own arrays is
        written to. A transaction refused for its nonce may leave a zero nonce entry behind. */
    method AddTransaction(env: Env, tx: Transaction) returns (outcome: Outcome)
      requires Valid()
      modifies this`transactions, this`balances, this`nextNonce, transactions.arr, balances.arr, nextNonce.arr
      ensures Valid() && fresh(Arrays() - old(Arrays()))
      ensures outcome == OutcomeOf(Apply(env, old(Val().book), tx))
      ensures tx.sig.None? || !env.verifier(tx) ==> outcome.Refused? && Val().book == old(Val().book)
      ensures !outcome.Crash? ==> Val().book == Apply(env, old(Val().book), tx).book
    {
      hide Apply;
      hide Get;
      hide Has;
      hide Put;
      hide Credit;
      hide Ledger.Contains;
      hide WithNonceEntry;
      hide Wrap;
      hide TotalOutput;
      ApplyCases(env, Val().book, tx);
      outcome := Refused;
      var refused := Refuses(env, tx);
      if refused { return; }
      var nonceIndex := NonceEntry(tx.info.from);
      IndexIsGet(Items(nextNonce), tx.info.from);
      var expected := nextNonce.arr[nonceIndex].amount;
      if expected > tx.info.nonce { return; }
      if expected < tx.info.nonce { return; }
      outcome := Enter(env, tx, nonceIndex);
    }

    /** The transition, case by case. */
    lemma ApplyCases(env: Env, book: Book, tx: Transaction)
      ensures var from, v := tx.info.from, Apply(env, book, tx);
              var nonces, had := WithNonceEntry(book.nonces, from), book.balances;
              if Ledger.Contains(env, book.txs, tx) || tx.sig.None? || !env.verifier(tx) || TotalOutput(tx) > Get(had, from)
              then v == Rejected(book)
              else if Get(nonces, from) != tx.info.nonce then v == Rejected(Book(book.txs, had, nonces))
              else if !Has(had, from) then v == Panic
              else v == Accepted(Book(book.txs + [TxEntry(IdOf(env, tx), tx)],
                                      Credit(Put(had, from, Wrap(Get(had, from) - TotalOutput(tx))), tx.info.outputs),
                                      Put(nonces, from, Wrap(Get(nonces, from) + 1))))
    {
    }

    /** The checks that come before the nonce is looked at. */
    method Refuses(env: Env, tx: Transaction) returns (refused: bool)
      requires Valid()
      ensures refused <==> Ledger.Contains(env, Items(transactions), tx) || tx.sig.None? || !env.verifier(tx)
                           || TotalOutput(tx) > Get(Items(balances), tx.info.from)
    {
      var duplicate := Contains(env, tx);
      if duplicate { return true; }
      if tx.sig == None { return true; }
      if !Verified(env, tx) { return true; }
      var enough := SufficientFund(tx);
      refused := !enough;
    }

    /** Takes a transaction that passed all checks. */
    method Enter(env: Env, tx: Transaction, nonceIndex: int) returns (outcome: Outcome)
      requires Valid() && nonceIndex == Index(Items(nextNonce), tx.info.from) >= 0
      modifies this`transactions, this`balances, transactions.arr, balances.arr, nextNonce.arr
      ensures Valid() && fresh(Arrays() - old(Arrays()))
      ensures outcome == if Has(old(Items(balances)), tx.info.from) then Taken else Crash
      ensures outcome.Taken? ==>
                var from, had := tx.info.from, old(Items(balances));
                && Items(transactions) == old(Items(transactions)) + [TxEntry(IdOf(env, tx), tx)]
                && Items(balances) == Credit(Put(had, from, Wrap(Get(had, from) - TotalOutput(tx))), tx.info.outputs)
                && Items(nextNonce) == Put(old(Items(nextNonce)), from, Wrap(Get(old(Items(nextNonce)), from) + 1))
    {
      hide Put;
      hide Credit;
      hide Has;
      IndexIsGet(Items(nextNonce), tx.info.from);
      hide Get;
      var expected: int := nextNonce.arr[nonceIndex].amount;
      SetNonce(nonceIndex, tx.info.from, Wrap(expected + 1));
      transactions := Append(transactions, TxEntry(IdOf(env, tx), tx));
      var found := Withdraw(tx);
      if !found { return Crash; }
      PayOutputs(tx.info.outputs);
      outcome := Taken;
    }

    /** Rebuilds the lists from the parent's: copy, pay the parent's reward, re-enter every transaction. All
        three are fresh, and neither the parent's arrays nor those the block had before are written to. */
    method Rerun(env: Env, prev: Block?) returns (outcome: Outcome)
      requires Valid() && (prev != null ==> prev != this && prev.Valid())
      modifies this`transactions, this`balances, this`nextNonce
      ensures Valid()
      ensures prev == null ==> outcome.Refused? && Val() == old(Val())
      ensures prev != null ==>
                && fresh(Arrays())
                && outcome == OutcomeOf(old(Ledger.Rerun(env, Items(transactions), prev.Val())))
                && (!outcome.Crash? ==> Val().book == old(Ledger.Rerun(env, Items(transactions), prev.Val())).book)
    {
      hide Base;
      hide Replay;
      if prev == null { return Refused; }
      Inherit(prev);
      var entries := TakeOut();
      assert Val().book == old(Base(prev.Val()));
      outcome := ReEnter(env, entries);
    }

    /** The transactions, over an array of their own; the block is left with none. */
    method TakeOut() returns (entries: Slice<TxEntry>)
      requires Valid()
      modifies this`transactions
      ensures Valid() && Fits(entries) && fresh(entries.arr) && fresh(transactions.arr) && entries.arr != transactions.arr
      ensures Items(entries) == old(Items(transactions)) && Items(transactions) == []
    {
      entries := Clone(transactions);
      transactions := Make();
    }

    /** Copies the parent's ledger and pays the parent's reward. */
    method Inherit(prev: Block)
      requires Valid() && prev != this && prev.Valid()
      modifies this`balances, this`nextNonce
      ensures Valid() && fresh(balances.arr) && fresh(nextNonce.arr)
      ensures Book([], Items(balances), Items(nextNonce)) == Base(prev.Val())
    {
      balances := Clone(prev.balances);
      nextNonce := Clone(prev.nextNonce);
      if prev.rewardAddr != "" {
        Reward(prev);
      }
    }

    /** Pays the parent's coinbase to its payee, on top of the balance the parent recorded. */
    method Reward(prev: Block)
      requires Valid() && prev.Valid() && prev != this && prev.rewardAddr != ""
      requires Items(balances) == Items(prev.balances) && balances.arr !in prev.Arrays()
      modifies this`balances, balances.arr
      ensures Valid() && (balances.arr == old(balances.arr) || fresh(balances.arr))
      ensures Items(balances) == Rewarded(old(prev.Val()))
    {
      hide Put;
      hide Wrap;
      var winnerBalance := prev.BalanceOf(prev.rewardAddr);
      balances := PutEntry(balances, prev.rewardAddr, Wrap(winnerBalance + prev.coinbaseReward));
    }

    method ReEnter(env: Env, entries: Slice<TxEntry>) returns (outcome: Outcome)
      requires Valid() && Fits(entries) && entries.arr != transactions.arr
      modifies this`transactions, this`balances, this`nextNonce, transactions.arr, balances.arr, nextNonce.arr
      ensures Valid() && fresh(Arrays() - old(Arrays()))
      ensures outcome == OutcomeOf(Replay(env, old(Val().book), old(Items(entries))))
      ensures !outcome.Crash? ==> Val().book == Replay(env, old(Val().book), old(Items(entries))).book
    {
      hide Apply;
      ghost var es := Items(entries);
      var i := 0;
      while i < entries.len
        invariant 0 <= i <= entries.len && Items(entries) == es
        invariant Valid() && fresh(Arrays() - old(Arrays())) && entries.arr != transactions.arr
        invariant Replay(env, old(Val().book), es) == Replay(env, Val().book, es[i..])
      {
        assert es[i..][1..] == es[i + 1..];
        var added := AddTransaction(env, entries.arr[i].tx);
        if !added.Taken? { return added; }
        i := i + 1;
      }
      outcome := Taken;
    }
  }

  lemma AppendedAtEnd(xs: seq<Entry>, id: string)
    requires Index(xs, id) < 0
    ensures Index(xs + [Entry(id, 0)], id) == |xs|
  {
    PutIndex(xs, id, 0, id);
  }

  lemma IndexIsGet(xs: seq<Entry>, id: string)
    requires Index(xs, id) >= 0
    ensures Get(xs, id) == xs[Index(xs, id)].amount
  {
  }

  // ---------------------------------------------------------------- the genesis block

  /** A block of height 0 that pays nobody and holds exactly the starting balances, each once; None is the nil map
      that the program refuses. */
  method MakeGenesis(env: Env, target: nat, coinbase: u32, starting: Option<map<Address, u32>>, now: int)
    returns (genesis: Option<Block>)
    ensures genesis.None? <==> starting.None?
    ensures genesis.Some? ==>
              && fresh(genesis.value) && fresh(genesis.value.Arrays()) && genesis.value.Valid()
              && genesis.value.Val().meta == Meta("", target, 0, 0, now, "", coinbase)
              && Items(genesis.value.transactions) == [] && Items(genesis.value.nextNonce) == []
              && (forall a :: Has(Items(genesis.value.balances), a) <==> a in starting.value)
              && (forall a :: a in starting.value ==> Get(Items(genesis.value.balances), a) == starting.value[a])
              && Distinct(Items(genesis.value.balances))
              && Total(Items(genesis.value.balances)) == SumOf(starting.value)
  {
    hide Get;
    hide Has;
    hide Distinct;
    hide SumOf;
    hide Total;
    hide ListsJust;
    if starting.None? { return None; }
    var block := new Block.New(env, "", null, target, coinbase, now);
    ListsNoneYet(starting.value);
    var todo := starting.value.Keys;
    while todo != {}
      invariant todo <= starting.value.Keys && fresh(block) && block.Valid() && fresh(block.Arrays())
      invariant block.Val().meta == Meta("", target, 0, 0, now, "", coinbase)
      invariant Items(block.transactions) == [] && Items(block.nextNonce) == []
      invariant ListsJust(Items(block.balances), starting.value, todo)
      decreases todo
    {
      var k :| k in todo;
      ListsOneMore(Items(block.balances), starting.value, todo, k);
      block.balances := Append(block.balances, Entry(k, starting.value[k]));
      todo := todo - {k};
    }
    ListsAll(Items(block.balances), starting.value);
    genesis := Some(block);
  }

  /** A list that holds exactly the starting balances of all addresses but the remaining ones. */
  ghost predicate ListsJust(xs: seq<Entry>, starting: map<Address, u32>, todo: set<Address>) {
    && Distinct(xs)
    && (forall a :: Has(xs, a) <==> a in starting && a !in todo)
    && (forall a :: a in starting && a !in todo ==> Get(xs, a) == starting[a])
  }

  lemma ListsNoneYet(starting: map<Address, u32>)
    ensures ListsJust([], starting, starting.Keys)
  {
  }

  /** Once all are listed, the list is the map, and its total is the sum of the map. */
  lemma ListsAll(xs: seq<Entry>, starting: map<Address, u32>)
    requires ListsJust(xs, starting, {})
    ensures (forall a :: Has(xs, a) <==> a in starting) && (forall a :: a in starting ==> Get(xs, a) == starting[a])
    ensures Distinct(xs) && Total(xs) == SumOf(starting)
  {
    TotalIsSum(xs);
    assert AsMap(xs) == starting;
  }

  lemma ListsOneMore(xs: seq<Entry>, starting: map<Address, u32>, todo: set<Address>, k: Address)
    requires ListsJust(xs, starting, todo) && k in todo && k in starting
    ensures ListsJust(xs + [Entry(k, starting[k])], starting, todo - {k})
  {
    forall a
      ensures Get(xs + [Entry(k, starting[k])], a) == if a == k then starting[k] else Get(xs, a)
      ensures Has(xs + [Entry(k, starting[k])], a) <==> a == k || Has(xs, a)
    {
      PutGet(xs, k, starting[k], a);
    }
    PutDistinct(xs, k, starting[k]);
    assert Put(xs, k, starting[k]) == xs + [Entry(k, starting[k])];
    hide Get;
    hide Has;
  }
}
