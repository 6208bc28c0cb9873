/**
 The stored state that a chain of blocks stands for. The main results say that a
 good chain never creates a transaction or an output twice, and that its coins
 are what it created minus what it spent.
 */
module Chain {
  import opened Types
  import opened Ledger
  import opened Storage
  import opened Validators
  import opened Validation

  // ── The chain a state stands for ───────────────────────────────────────────

  function Prefix(chain: seq<Block>): seq<Block>
    requires chain != []
  {
    chain[..|chain| - 1]
  }

  function Last(chain: seq<Block>): Block
    requires chain != []
  {
    chain[|chain| - 1]
  }

  /** Replaying the stored blocks from nothing. */
  function Replay(chain: seq<Block>): Coins {
    if chain == [] then Coins(map[], map[])
    else ApplyTxs(Last(chain).header.height, Replay(Prefix(chain)), Last(chain).txs)
  }

  function BlocksOf(chain: seq<Block>): map<nat, Block> {
    map h | 0 <= h < |chain| :: chain[h]
  }

  function IndexOf(chain: seq<Block>): map<Digest, nat> {
    if chain == [] then map[] else IndexOf(Prefix(chain))[BlockHash(Last(chain)) := |chain| - 1]
  }

  function TipOf(chain: seq<Block>): Option<Tip> {
    if chain == [] then None else Some(Tip(|chain| - 1, BlockHash(Last(chain))))
  }

  function DbOf(chain: seq<Block>, registry: Registry): Db {
    Db(BlocksOf(chain), IndexOf(chain), Replay(chain).utxo, Replay(chain).spent, registry, TipOf(chain), None)
  }

  ghost predicate NumberedFromZero(chain: seq<Block>) {
    forall i :: 0 <= i < |chain| ==> chain[i].header.height == i
  }

  /** A chain from a block at height 0 on, by heights and parent hashes; nothing is said of its transactions. */
  ghost predicate Linked(chain: seq<Block>) {
    && chain != [] && NumberedFromZero(chain)
    && forall i, j :: 0 <= i < j < |chain| && j == i + 1 ==> chain[j].header.prevHash == BlockHash(chain[i])
  }

  lemma LinkedPrefix(chain: seq<Block>)
    requires Linked(chain) && |chain| > 1
    ensures Linked(Prefix(chain))
  {
  }

  lemma LinkedMore(chain: seq<Block>, block: Block)
    requires Linked(chain) && block.header.height == |chain| && block.header.prevHash == BlockHash(Last(chain))
    ensures Linked(chain + [block])
  {
  }

  /** The hash index is the exact inverse of the height map. */
  lemma {:induction false} IndexInverse(chain: seq<Block>)
    requires NumberedFromZero(chain)
    ensures forall i :: 0 <= i < |chain| ==>
              BlockHash(chain[i]) in IndexOf(chain) && IndexOf(chain)[BlockHash(chain[i])] == i
    ensures forall d :: d in IndexOf(chain) ==> IndexOf(chain)[d] < |chain| && BlockHash(chain[IndexOf(chain)[d]]) == d
  {
    if chain != [] {
      var init := Prefix(chain);
      IndexInverse(init);
      forall i | 0 <= i < |chain|
        ensures BlockHash(chain[i]) in IndexOf(chain) && IndexOf(chain)[BlockHash(chain[i])] == i
      {
        if i < |init| {
          assert init[i] == chain[i];
        }
      }
    }
  }

  /** A hash covers the height, so it is new above the chain. */
  lemma NextHashIsNew(chain: seq<Block>, block: Block)
    requires NumberedFromZero(chain) && block.header.height == |chain|
    ensures BlockHash(block) !in IndexOf(chain)
  {
    IndexInverse(chain);
  }

  lemma {:induction false} RecordsBelow(chain: seq<Block>)
    requires NumberedFromZero(chain)
    ensures forall key :: key in Replay(chain).spent ==> key.height < |chain|
  {
    if chain != [] {
      var init := Prefix(chain);
      RecordsBelow(init);
      forall key | key in Replay(chain).spent ensures key.height < |chain| {
        ApplyKeepsOthers(|chain| - 1, Replay(init), Last(chain).txs);
      }
    }
  }

  // ── Good chains ────────────────────────────────────────────────────────────

  ghost predicate NoOverflows(txs: seq<Transaction>) {
    forall tx :: tx in txs ==> NoOverflow(tx)
  }

  /** Allocations have no inputs. */
  ghost predicate IsGenesis(block: Block) {
    block.header.height == 0 && NoOverflows(block.txs) && forall tx :: tx in block.txs ==> tx.inputs == []
  }

  /** `block` was accepted on top of `chain`. */
  ghost predicate AcceptedOn(p: Params, registry: Registry, chain: seq<Block>, block: Block) {
    && chain != []
    && BlockVerdict(p, block, Last(chain), Replay(chain).utxo, registry) == Ok(())
    && NoOverflows(block.txs)
  }

  ghost predicate GoodChain(p: Params, registry: Registry, chain: seq<Block>) {
    chain != [] &&
    if |chain| == 1 then IsGenesis(chain[0])
    else GoodChain(p, registry, Prefix(chain)) && AcceptedOn(p, registry, Prefix(chain), Last(chain))
  }

  lemma {:induction false} GoodPrefix(p: Params, registry: Registry, chain: seq<Block>, n: nat)
    requires GoodChain(p, registry, chain) && 0 < n <= |chain|
    ensures GoodChain(p, registry, chain[..n])
    ensures n < |chain| ==> AcceptedOn(p, registry, chain[..n], chain[n])
  {
    if n < |chain| {
      if n < |chain| - 1 {
        GoodPrefix(p, registry, Prefix(chain), n);
        assert Prefix(chain)[..n] == chain[..n];
      }
    } else {
      assert chain[..n] == chain;
    }
  }

  lemma VerdictAccepts(p: Params, registry: Registry, have: seq<Block>, block: Block, parent: Block)
    requires have != [] && parent == Last(have) && NoOverflows(block.txs)
    requires BlockVerdict(p, block, parent, Replay(have).utxo, registry) == Ok(())
    ensures AcceptedOn(p, registry, have, block)
  {
  }

  lemma AcceptedFacts(p: Params, registry: Registry, chain: seq<Block>, block: Block)
    requires AcceptedOn(p, registry, chain, block)
    ensures block.header.height == Last(chain).header.height + 1
    ensures block.header.prevHash == BlockHash(Last(chain))
    ensures AllValid(block.txs, Replay(chain).utxo)
  {
  }

  lemma {:induction false} LastHeight(p: Params, registry: Registry, chain: seq<Block>)
    requires GoodChain(p, registry, chain)
    ensures Last(chain).header.height == |chain| - 1
  {
    if |chain| > 1 {
      LastHeight(p, registry, Prefix(chain));
      AcceptedFacts(p, registry, Prefix(chain), Last(chain));
    }
  }

  lemma GoodNumbered(p: Params, registry: Registry, chain: seq<Block>)
    requires GoodChain(p, registry, chain)
    ensures NumberedFromZero(chain)
  {
    forall i | 0 <= i < |chain| ensures chain[i].header.height == i {
      GoodPrefix(p, registry, chain, i + 1);
      LastHeight(p, registry, chain[..i + 1]);
    }
  }

  lemma GoodNames(p: Params, registry: Registry, chain: seq<Block>, i: nat, j: nat)
    requires GoodChain(p, registry, chain) && j == i + 1 < |chain|
    ensures chain[j].header.prevHash == BlockHash(chain[i])
  {
    GoodPrefix(p, registry, chain, j);
    AcceptedFacts(p, registry, chain[..j], chain[j]);
  }

  /** Heights count from the genesis block and every block names its parent's hash. */
  lemma GoodChainLinks(p: Params, registry: Registry, chain: seq<Block>)
    requires GoodChain(p, registry, chain)
    ensures Linked(chain)
  {
    GoodNumbered(p, registry, chain);
    forall i, j | 0 <= i < j < |chain| && j == i + 1 ensures chain[j].header.prevHash == BlockHash(chain[i]) {
      GoodNames(p, registry, chain, i, j);
    }
  }

  // ── No resurrection ────────────────────────────────────────────────────────

  /** Every output reference the chain ever created. */
  function Created(chain: seq<Block>): set<TxOutRef> {
    if chain == [] then {} else Created(Prefix(chain)) + TxsOuts(Last(chain).txs)
  }

  /** Every output reference the chain ever named as an input. */
  function SpentRefs(chain: seq<Block>): set<TxOutRef> {
    if chain == [] then {} else SpentRefs(Prefix(chain)) + TxsIns(Last(chain).txs)
  }

  lemma {:induction false} CreatedMember(chain: seq<Block>, ref: TxOutRef)
    ensures ref in Created(chain) <==>
            ref.txHash.OfTx? && IsOutRef(ref) && exists i :: 0 <= i < |chain| && ref.txHash.tx in chain[i].txs
  {
    if chain != [] {
      var init := Prefix(chain);
      CreatedMember(init, ref);
      TxsOutsMember(Last(chain).txs, ref);
      if ref.txHash.OfTx? && exists i :: 0 <= i < |chain| && ref.txHash.tx in chain[i].txs {
        var i :| 0 <= i < |chain| && ref.txHash.tx in chain[i].txs;
        assert i < |init| ==> init[i] == chain[i];
      }
    }
  }

  lemma {:induction false} SpentByMember(chain: seq<Block>, i: nat, tx: Transaction)
    requires i < |chain| && tx in chain[i].txs
    ensures Ins(tx) <= SpentRefs(chain)
  {
    if i == |chain| - 1 {
      TxInsWithin(chain[i].txs, tx);
    } else {
      SpentByMember(Prefix(chain), i, tx);
    }
  }

  ghost predicate CoinsAreCreatedMinusSpent(chain: seq<Block>) {
    && SpentRefs(chain) <= Created(chain)
    && Replay(chain).utxo.Keys == Created(chain) - SpentRefs(chain)
    && forall ref :: ref in Replay(chain).utxo ==> IsOutRef(ref) && Replay(chain).utxo[ref] == Named(ref)
  }

  /** Accepting a block with outputs never seen before keeps the coins exactly created minus spent. */
  lemma StepKeepsCoins(chain: seq<Block>, block: Block)
    requires CoinsAreCreatedMinusSpent(chain) && AllValid(block.txs, Replay(chain).utxo)
    requires TxsOuts(block.txs) !! Created(chain)
    ensures CoinsAreCreatedMinusSpent(chain + [block])
  {
    var c, next := Replay(chain), chain + [block];
    assert Prefix(next) == chain;
    ValidInputsExist(block.txs, c.utxo);
    assert NoInnerSpend(block.txs);
    forall ref
      ensures ref in Replay(next).utxo <==> ref in Created(next) - SpentRefs(next)
      ensures ref in Replay(next).utxo ==> IsOutRef(ref) && Replay(next).utxo[ref] == Named(ref)
    {
      AppliedRef(block.header.height, c, block.txs, ref);
    }
  }

  /**
   A block accepted on a good chain repeats no transaction of the chain: its
   inputs are still there, while those of any earlier transaction are gone for
   good. So its outputs are new.
   */
  lemma AcceptedIsNew(p: Params, registry: Registry, chain: seq<Block>, block: Block)
    requires CoinsAreCreatedMinusSpent(chain) && AcceptedOn(p, registry, chain, block)
    ensures TxsOuts(block.txs) !! Created(chain)
    ensures forall i, tx :: 0 <= i < |chain| && tx in block.txs ==> tx !in chain[i].txs
  {
    forall i, tx | 0 <= i < |chain| && tx in block.txs ensures tx !in chain[i].txs {
      if tx in chain[i].txs {
        NeedsInput(tx, Replay(chain).utxo);
        SpentByMember(chain, i, tx);
        assert false;
      }
    }
    forall ref | ref in TxsOuts(block.txs) ensures ref !in Created(chain) {
      TxsOutsMember(block.txs, ref);
      CreatedMember(chain, ref);
    }
  }

  lemma AcceptedKeepsCoins(p: Params, registry: Registry, chain: seq<Block>, block: Block)
    requires CoinsAreCreatedMinusSpent(chain) && AcceptedOn(p, registry, chain, block)
    ensures CoinsAreCreatedMinusSpent(chain + [block])
  {
    AcceptedIsNew(p, registry, chain, block);
    StepKeepsCoins(chain, block);
  }

  lemma {:induction false} CoinsOfGoodChain(p: Params, registry: Registry, chain: seq<Block>)
    requires GoodChain(p, registry, chain)
    ensures CoinsAreCreatedMinusSpent(chain)
  {
    if |chain| == 1 {
      GenesisCoins(chain);
    } else {
      var init := Prefix(chain);
      CoinsOfGoodChain(p, registry, init);
      AcceptedKeepsCoins(p, registry, init, Last(chain));
      SplitLast(chain);
    }
  }

  lemma SplitLast(chain: seq<Block>)
    requires chain != []
    ensures chain == Prefix(chain) + [Last(chain)]
  {
  }

  lemma GenesisCoins(chain: seq<Block>)
    requires |chain| == 1 && IsGenesis(chain[0])
    ensures CoinsAreCreatedMinusSpent(chain)
  {
    assert Prefix(chain) == [];
    forall ref ensures ref !in TxsIns(chain[0].txs) {
      TxsInsMember(chain[0].txs, ref);
    }
    forall ref
      ensures ref in Replay(chain).utxo <==> ref in Created(chain)
      ensures ref in Replay(chain).utxo ==> IsOutRef(ref) && Replay(chain).utxo[ref] == Named(ref)
    {
      AppliedRef(chain[0].header.height, Replay([]), chain[0].txs, ref);
    }
  }

  /** No transaction is in two blocks of a good chain. */
  lemma NoTransactionTwice(p: Params, registry: Registry, chain: seq<Block>, i: nat, j: nat, tx: Transaction)
    requires GoodChain(p, registry, chain) && i < j < |chain|
    requires tx in chain[i].txs
    ensures tx !in chain[j].txs
  {
    GoodPrefix(p, registry, chain, j);
    CoinsOfGoodChain(p, registry, chain[..j]);
    AcceptedIsNew(p, registry, chain[..j], chain[j]);
    assert chain[..j][i] == chain[i];
  }

  /** What a block needs so that it can be rolled back: outputs not among the coins, no records at its height. */
  lemma AcceptedIsFresh(p: Params, registry: Registry, chain: seq<Block>, block: Block)
    requires GoodChain(p, registry, chain) && AcceptedOn(p, registry, chain, block)
    ensures block.header.height == |chain|
    ensures FreshOuts(Replay(chain).utxo, block.txs) && NoRecordsAt(|chain|, Replay(chain).spent)
    ensures NoInnerSpend(block.txs)
    ensures BlockHash(block) !in IndexOf(chain)
    ensures GoodChain(p, registry, chain + [block])
  {
    GoodChainLinks(p, registry, chain);
    CoinsOfGoodChain(p, registry, chain);
    AcceptedIsNew(p, registry, chain, block);
    RecordsBelow(chain);
    IndexInverse(chain);
    ValidInputsExist(block.txs, Replay(chain).utxo);
    assert Prefix(chain + [block]) == chain;
  }

  lemma OneMoreKeepsRecords(chain: seq<Block>, key: SpentKey, early: Coins, late: Coins)
    requires chain != [] && NumberedFromZero(chain) && key.height < |chain| - 1
    requires early == Replay(Prefix(chain)) && late == Replay(chain)
    ensures (key in early.spent <==> key in late.spent) && (key in early.spent ==> early.spent[key] == late.spent[key])
  {
    assert chain[|chain| - 1].header.height == |chain| - 1;
    ApplyKeepsOthers(|chain| - 1, early, Last(chain).txs);
  }

  /** Later blocks leave the records of earlier heights alone. */
  lemma {:induction false} RecordsKept(chain: seq<Block>, n: nat, ref: TxOutRef)
    requires NumberedFromZero(chain) && n < |chain|
    ensures var key, early, late := SpentKey(n, ref), Replay(chain[..n + 1]).spent, Replay(chain).spent;
            (key in early <==> key in late) && (key in early ==> early[key] == late[key])
    decreases |chain|
  {
    if n == |chain| - 1 {
      assert chain[..n + 1] == chain;
    } else {
      var init := Prefix(chain);
      assert init[..n + 1] == chain[..n + 1];
      RecordsKept(init, n, ref);
      OneMoreKeepsRecords(chain, SpentKey(n, ref), Replay(init), Replay(chain));
    }
  }

  lemma RecordsOfLast(p: Params, registry: Registry, chain: seq<Block>, block: Block, ref: TxOutRef, after: Coins)
    requires GoodChain(p, registry, chain) && AcceptedOn(p, registry, chain, block) && after == Replay(chain + [block])
    ensures var key := SpentKey(|chain|, ref);
            && (key in after.spent <==> ref in TxsIns(block.txs))
            && (key in after.spent ==> ref in Replay(chain).utxo && after.spent[key] == Replay(chain).utxo[ref])
  {
    assert Prefix(chain + [block]) == chain;
    AcceptedIsFresh(p, registry, chain, block);
    AcceptedFacts(p, registry, chain, block);
    ValidInputsExist(block.txs, Replay(chain).utxo);
    AppliedRef(|chain|, Replay(chain), block.txs, ref);
  }

  /** The records at a height are exactly the outputs its block consumed, with their values. */
  lemma {:induction false} RecordsOfBlock(p: Params, registry: Registry, chain: seq<Block>, n: nat, ref: TxOutRef)
    requires GoodChain(p, registry, chain) && 0 < n < |chain|
    ensures var key, before, spent := SpentKey(n, ref), Replay(chain[..n]).utxo, Replay(chain).spent;
            && (key in spent <==> ref in TxsIns(chain[n].txs))
            && (key in spent ==> ref in before && spent[key] == before[ref])
    decreases |chain|
  {
    var init := Prefix(chain);
    if n == |chain| - 1 {
      SplitLast(chain);
      RecordsOfLast(p, registry, init, Last(chain), ref, Replay(chain));
    } else {
      RecordsOfBlock(p, registry, init, n, ref);
      assert init[..n] == chain[..n];
      GoodChainLinks(p, registry, chain);
      OneMoreKeepsRecords(chain, SpentKey(n, ref), Replay(init), Replay(chain));
    }
  }

  /** The genesis block consumes nothing. */
  lemma NoGenesisRecords(p: Params, registry: Registry, chain: seq<Block>, ref: TxOutRef)
    requires GoodChain(p, registry, chain)
    ensures SpentKey(0, ref) !in Replay(chain).spent
  {
    GoodChainLinks(p, registry, chain);
    RecordsKept(chain, 0, ref);
    GoodPrefix(p, registry, chain, 1);
    assert Prefix(chain[..1]) == [];
    AppliedNothing(0, Replay([]), chain[0].txs, SpentKey(0, ref));
  }

  lemma {:induction false} AppliedNothing(height: nat, c: Coins, txs: seq<Transaction>, key: SpentKey)
    requires forall tx :: tx in txs ==> tx.inputs == []
    ensures key in ApplyTxs(height, c, txs).spent ==> key in c.spent
  {
    if txs != [] {
      AppliedNothing(height, c, txs[..|txs| - 1], key);
    }
  }

  lemma {:induction false} ChainNeverOverflows(
    p: Params, registry: Registry, chain: seq<Block>, i: nat, tx: Transaction)
    requires GoodChain(p, registry, chain) && i < |chain| && tx in chain[i].txs
    ensures NoOverflow(tx)
  {
    if i < |chain| - 1 {
      ChainNeverOverflows(p, registry, Prefix(chain), i, tx);
    }
  }

  /** A transaction that is valid now is not on the chain yet. */
  lemma ValidIsUnconfirmed(p: Params, registry: Registry, chain: seq<Block>, tx: Transaction, i: nat)
    requires GoodChain(p, registry, chain) && ValidTx(tx, Replay(chain).utxo) && i < |chain|
    ensures tx !in chain[i].txs
  {
    if tx in chain[i].txs {
      ChainNeverOverflows(p, registry, chain, i, tx);
      NeedsInput(tx, Replay(chain).utxo);
      SpentByMember(chain, i, tx);
      CoinsOfGoodChain(p, registry, chain);
      assert false;
    }
  }

  // ── Reading the chain back ─────────────────────────────────────────────────

  /** The keys 0, …, n - 1 in order are the numbers 0, …, n - 1. */
  lemma KeysInOrder(keys: seq<nat>, n: nat)
    requires forall k: nat :: k in keys <==> k < n
    requires forall i, j :: 0 <= i < j < |keys| ==> keys[i] < keys[j]
    ensures |keys| == n && forall i :: 0 <= i < n ==> keys[i] == i
  {
    var numbers := seq(n, i requires 0 <= i < n => i as nat);
    forall k: nat ensures k in keys <==> k in numbers {
      assert k < n ==> numbers[k] == k;
    }
    AscendingUnique(keys, numbers);
  }

  lemma {:induction false} StoredUpTo(chain: seq<Block>, keys: seq<nat>, height: nat)
    requires |keys| <= |chain| && forall i :: 0 <= i < |keys| ==> keys[i] == i
    ensures StoredFrom(BlocksOf(chain), keys, height) == chain[Min(height, |keys|)..|keys|]
  {
    if keys != [] {
      var init, k := keys[..|keys| - 1], |keys| - 1;
      StoredUpTo(chain, init, height);
      SliceGrows(chain, height, k);
      assert keys[k] == k;
    } else {
      assert chain[Min(height, 0)..0] == [];
    }
  }

  lemma SliceGrows(chain: seq<Block>, height: nat, k: nat)
    requires k < |chain|
    ensures chain[Min(height, k + 1)..k + 1] == chain[Min(height, k)..k] + (if k >= height then [chain[k]] else [])
  {
  }

  /** Iterating a stored chain from a height yields its blocks from there on. */
  lemma BlocksFromChain(chain: seq<Block>, height: nat)
    ensures BlocksFrom(BlocksOf(chain), height) == chain[Min(height, |chain|)..]
  {
    var keys := KeyOrder(BlocksOf(chain).Keys);
    KeysInOrder(keys, |chain|);
    StoredUpTo(chain, keys, height);
    assert chain[Min(height, |chain|)..|chain|] == chain[Min(height, |chain|)..];
  }

  /** The chain that the height map holds. */
  function StoredChain(db: Db): seq<Block> {
    BlocksFrom(db.blocksH, 0)
  }

  lemma StoredChainOf(chain: seq<Block>, registry: Registry)
    ensures StoredChain(DbOf(chain, registry)) == chain
  {
    BlocksFromChain(chain, 0);
    assert chain[0..] == chain;
  }
}
