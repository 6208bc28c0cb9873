/**
 What the stored state is after each step and after every single durable write
 inside a step, whatever blocks the chain holds, valid or not.
 */
module Durability {
  import opened Types
  import opened Ledger
  import opened Validators
  import Validation
  import opened Storage
  import opened Chain

  function Extend(db: Db, block: Block): Db {
    ApplyBlock(InsertBlock(db, block), block)
  }

  /** `reorg_block`: roll back, insert, apply. */
  function Reorg(db: Db, oldBlock: Block, newBlock: Block): Db {
    Extend(RollbackBlock(db, oldBlock), newBlock)
  }

  function ExtendWrites(db: Db, block: Block): seq<Db> {
    InsertWrites(db, block) + ApplyWrites(InsertBlock(db, block), block)
  }

  function ReorgWrites(db: Db, oldBlock: Block, newBlock: Block): seq<Db> {
    RollbackWrites(db, oldBlock) + ExtendWrites(RollbackBlock(db, oldBlock), newBlock)
  }

  // ── Whole steps ────────────────────────────────────────────────────────────

  lemma HeightMapExtends(chain: seq<Block>, block: Block)
    ensures BlocksOf(chain + [block]) == BlocksOf(chain)[|chain| := block]
    ensures BlocksOf(chain) == BlocksOf(chain + [block]) - {|chain|}
  {
  }

  lemma BlocksExtend(chain: seq<Block>, block: Block)
    ensures BlocksOf(chain + [block]) == BlocksOf(chain)[|chain| := block]
    ensures BlocksOf(chain) == BlocksOf(chain + [block]) - {|chain|}
    ensures IndexOf(chain + [block]) == IndexOf(chain)[BlockHash(block) := |chain|]
    ensures Replay(chain + [block]) == ApplyTxs(block.header.height, Replay(chain), block.txs)
  {
    HeightMapExtends(chain, block);
    assert Prefix(chain + [block]) == chain;
  }

  /** Accepting a block takes the stored state of a chain to that of the longer chain. */
  lemma ExtendStored(chain: seq<Block>, block: Block, registry: Registry)
    requires block.header.height == |chain|
    ensures Extend(DbOf(chain, registry), block) == DbOf(chain + [block], registry)
  {
    BlocksExtend(chain, block);
  }

  lemma TipRecords(chain: seq<Block>, block: Block)
    requires NumberedFromZero(chain + [block])
    ensures NumberedFromZero(chain) && block.header.height == |chain| && NoRecordsAt(|chain|, Replay(chain).spent)
  {
    var all := chain + [block];
    assert all[|chain|] == block;
    forall i | 0 <= i < |chain| ensures chain[i].header.height == i {
      assert all[i] == chain[i];
    }
    RecordsBelow(chain);
  }

  /** What rolling the tip back leaves of the parent's coins. */
  ghost function Left(chain: seq<Block>, block: Block): Coins {
    var c := Replay(chain);
    Coins(c.utxo - Lost(c.utxo, block.txs), c.spent)
  }

  lemma RollbackStoredCoins(chain: seq<Block>, block: Block, registry: Registry)
    requires NumberedFromZero(chain + [block])
    ensures RollbackCoins(DbOf(chain + [block], registry), block)
         == WithCoins(DbOf(chain + [block], registry), Left(chain, block))
  {
    TipRecords(chain, block);
    RollbackLeaves(|chain|, Replay(chain), block.txs);
    BlocksExtend(chain, block);
  }

  lemma DropsTip(chain: seq<Block>, block: Block, db: Db, registry: Registry)
    requires NumberedFromZero(chain + [block]) && Stores(db, chain + [block], registry)
    ensures Stores(DropBlock(db, block), chain, registry)
  {
    TipRecords(chain, block);
    NextHashIsNew(chain, block);
    BlocksExtend(chain, block);
    assert IndexOf(chain + [block]) - {BlockHash(block)} == IndexOf(chain);
  }

  /** Rolling the tip back restores the parent's state in every tree, except for the coins that are lost. */
  lemma RollbackStored(chain: seq<Block>, block: Block, registry: Registry)
    requires NumberedFromZero(chain + [block])
    ensures RollbackBlock(DbOf(chain + [block], registry), block)
         == WithCoins(DbOf(chain, registry), Left(chain, block))
    ensures RollbackBlock(DbOf(chain + [block], registry), block) == DbOf(chain, registry)
            <==> Lost(Replay(chain).utxo, block.txs) == {}
  {
    RollbackStoredCoins(chain, block, registry);
    DropsTip(chain, block, WithCoins(DbOf(chain + [block], registry), Left(chain, block)), registry);
    LeftIsAll(Replay(chain).utxo, Lost(Replay(chain).utxo, block.txs));
  }

  lemma LeftIsAll(utxo: Utxo, lost: set<TxOutRef>)
    requires lost <= utxo.Keys
    ensures utxo - lost == utxo <==> lost == {}
  {
    if ref :| ref in lost {
      assert ref in utxo && ref !in utxo - lost;
    } else {
      assert utxo - lost == utxo;
    }
  }

  /** Storing a block over any coins. */
  lemma ExtendOver(chain: seq<Block>, db: Db, block: Block, registry: Registry)
    requires block.header.height == |chain| && Stores(db, chain, registry)
    ensures Extend(db, block)
         == WithCoins(DbOf(chain + [block], registry), ApplyTxs(|chain|, CoinsIn(db), block.txs))
    ensures Replay(chain + [block]) == ApplyTxs(|chain|, Replay(chain), block.txs)
  {
    BlocksExtend(chain, block);
  }

  ghost predicate AllMadeUp(refs: set<TxOutRef>, block: Block) {
    forall ref :: ref in refs ==> MadeUpFor(ref, block.txs)
  }

  /** A reorg over coins that lack some of the parent's once the old tip is undone. */
  lemma ReorgLacking(
    chain: seq<Block>, oldBlock: Block, newBlock: Block, registry: Registry, db: Db, lacking: set<TxOutRef>)
    requires NumberedFromZero(chain + [oldBlock]) && newBlock.header.height == |chain|
    requires Stores(db, chain + [oldBlock], registry) && lacking <= Replay(chain).utxo.Keys
    requires RollbackTxs(|chain|, CoinsIn(db), oldBlock.txs)
          == Coins(Replay(chain).utxo - lacking, Replay(chain).spent)
    ensures Reorg(db, oldBlock, newBlock) == DbOf(chain + [newBlock], registry) <==> AllMadeUp(lacking, newBlock)
  {
    TipRecords(chain, oldBlock);
    DropsTip(chain, oldBlock, RollbackCoins(db, oldBlock), registry);
    ExtendOver(chain, RollbackBlock(db, oldBlock), newBlock, registry);
    ApplyWithout(|chain|, Replay(chain), lacking, newBlock.txs);
  }

  /**
   A reorg gives what a node holds that saw the new block only, if and only if the
   new block makes up for what is lost with the old one.
   */
  lemma ReorgStored(chain: seq<Block>, oldBlock: Block, newBlock: Block, registry: Registry)
    requires NumberedFromZero(chain + [oldBlock]) && newBlock.header.height == |chain|
    ensures Reorg(DbOf(chain + [oldBlock], registry), oldBlock, newBlock) == DbOf(chain + [newBlock], registry)
            <==> AllMadeUp(Lost(Replay(chain).utxo, oldBlock.txs), newBlock)
  {
    var db, lost := DbOf(chain + [oldBlock], registry), Lost(Replay(chain).utxo, oldBlock.txs);
    TipRecords(chain, oldBlock);
    RollbackLeaves(|chain|, Replay(chain), oldBlock.txs);
    BlocksExtend(chain, oldBlock);
    ReorgLacking(chain, oldBlock, newBlock, registry, db, lost);
  }

  /** Nothing is lost of an accepted block: its outputs are new. */
  lemma AcceptedLosesNothing(p: Params, registry: Registry, chain: seq<Block>, block: Block)
    requires GoodChain(p, registry, chain) && AcceptedOn(p, registry, chain, block)
    ensures Linked(chain + [block]) && Lost(Replay(chain).utxo, block.txs) == {}
  {
    AcceptedIsFresh(p, registry, chain, block);
    FreshLosesNothing(Replay(chain).utxo, block.txs);
    GoodChainLinks(p, registry, chain + [block]);
  }

  // ── Every durable write ────────────────────────────────────────────────────

  /** Height map, hash index, tip record and registry are those of `chain`. */
  ghost predicate Stores(db: Db, chain: seq<Block>, registry: Registry) {
    && db.blocksH == BlocksOf(chain) && db.blocksIdx == IndexOf(chain) && db.tip == TipOf(chain)
    && db.registry == registry
  }

  /** The coins are those of the stored chain, or of the stored chain without its tip. */
  ghost predicate CoinsOrLag(db: Db, chain: seq<Block>) {
    CoinsIn(db) == Replay(chain) || (chain != [] && CoinsIn(db) == Replay(Prefix(chain)))
  }

  /** A linked chain is stored, and the coins are its replay or lag by its tip. */
  ghost predicate CrashConsistent(registry: Registry, db: Db) {
    var chain := StoredChain(db);
    Linked(chain) && Stores(db, chain, registry) && CoinsOrLag(db, chain)
  }

  lemma ConsistentIff(registry: Registry, chain: seq<Block>, db: Db)
    requires Linked(chain) && Stores(db, chain, registry)
    ensures StoredChain(db) == chain && (CrashConsistent(registry, db) <==> CoinsOrLag(db, chain))
  {
    StoredChainOf(chain, registry);
  }

  ghost predicate AllConsistent(registry: Registry, writes: seq<Db>) {
    forall k :: 0 <= k < |writes| ==> CrashConsistent(registry, writes[k])
  }

  /** The four writes of accepting or proposing: the coins catch up with the third. */
  lemma ExtendWriteByWrite(chain: seq<Block>, block: Block, registry: Registry, k: nat)
    requires block.header.height == |chain| && k < 4
    ensures var w := ExtendWrites(DbOf(chain, registry), block);
            && |w| == 4 && w[3] == Extend(DbOf(chain, registry), block)
            && Stores(w[k], chain + [block], registry)
            && CoinsIn(w[k]) == (if k < 2 then Replay(chain) else Replay(chain + [block]))
            && w[k].sentinel == (if 1 <= k <= 2 then Some(block.header.height) else None)
  {
    BlocksExtend(chain, block);
  }

  lemma GoodExtended(p: Params, registry: Registry, chain: seq<Block>, block: Block)
    requires GoodChain(p, registry, chain) && AcceptedOn(p, registry, chain, block)
    ensures GoodChain(p, registry, chain + [block]) && Prefix(chain + [block]) == chain
    ensures block.header.height == |chain|
  {
    AcceptedIsFresh(p, registry, chain, block);
    assert Prefix(chain + [block]) == chain;
  }

  /** Whatever prefix of the writes of an accept or a proposal is durable, the state is consistent. */
  lemma ExtendCrash(chain: seq<Block>, block: Block, registry: Registry)
    requires Linked(chain + [block])
    ensures AllConsistent(registry, ExtendWrites(DbOf(chain, registry), block))
  {
    var w := ExtendWrites(DbOf(chain, registry), block);
    TipRecords(chain, block);
    assert Prefix(chain + [block]) == chain;
    forall k | 0 <= k < |w| ensures CrashConsistent(registry, w[k]) {
      ExtendWriteByWrite(chain, block, registry, k);
      ConsistentIff(registry, chain + [block], w[k]);
    }
  }

  lemma TwoConsistent(registry: Registry, a: Db, b: Db)
    ensures AllConsistent(registry, [a, b]) <==> CrashConsistent(registry, a) && CrashConsistent(registry, b)
  {
    var writes := [a, b];
    assert writes[0] == a && writes[1] == b;
  }

  /** The coins that a rollback with losses leaves are neither those with the tip nor those without it. */
  lemma LossShows(height: nat, c: Coins, txs: seq<Transaction>)
    requires NoRecordsAt(height, c.spent) && Lost(c.utxo, txs) != {}
    ensures var left := Coins(c.utxo - Lost(c.utxo, txs), c.spent); left != c && left != ApplyTxs(height, c, txs)
  {
    var ref :| ref in Lost(c.utxo, txs);
    ApplyAt(height, c, txs, ref);
    assert ref in c.utxo && ref !in c.utxo - Lost(c.utxo, txs);
  }

  /** Undoing the tip: the coins drop back first, and that is consistent if and only if nothing is lost. */
  lemma CoinsUndone(chain: seq<Block>, block: Block, registry: Registry)
    requires Linked(chain + [block])
    ensures CrashConsistent(registry, RollbackCoins(DbOf(chain + [block], registry), block))
            <==> Lost(Replay(chain).utxo, block.txs) == {}
  {
    var db, left := DbOf(chain + [block], registry), Left(chain, block);
    TipRecords(chain, block);
    RollbackStoredCoins(chain, block, registry);
    ConsistentIff(registry, chain + [block], WithCoins(db, left));
    BlocksExtend(chain, block);
    assert Prefix(chain + [block]) == chain;
    LeftIsAll(Replay(chain).utxo, Lost(Replay(chain).utxo, block.txs));
    if Lost(Replay(chain).utxo, block.txs) != {} {
      LossShows(|chain|, Replay(chain), block.txs);
    }
  }

  /** Then the block goes. Both writes leave a consistent state if and only if nothing is lost. */
  lemma RollbackCrash(chain: seq<Block>, block: Block, registry: Registry)
    requires chain != [] && Linked(chain + [block])
    ensures AllConsistent(registry, RollbackWrites(DbOf(chain + [block], registry), block))
            <==> Lost(Replay(chain).utxo, block.txs) == {}
  {
    var db := DbOf(chain + [block], registry);
    CoinsUndone(chain, block, registry);
    RollbackStored(chain, block, registry);
    TwoConsistent(registry, RollbackCoins(db, block), RollbackBlock(db, block));
    assert Prefix(chain + [block]) == chain;
    LinkedPrefix(chain + [block]);
    ConsistentIff(registry, chain, DbOf(chain, registry));
  }

  lemma ConsistentJoined(registry: Registry, a: seq<Db>, b: seq<Db>)
    ensures AllConsistent(registry, a + b) <==> AllConsistent(registry, a) && AllConsistent(registry, b)
  {
    forall k | 0 <= k < |a| ensures (a + b)[k] == a[k] {
    }
    forall k | 0 <= k < |b| ensures (a + b)[|a| + k] == b[k] {
    }
  }

  /** The two writes of a rollback: first the coins drop back, then the block goes. */
  lemma RollbackWriteByWrite(chain: seq<Block>, block: Block, registry: Registry)
    requires NumberedFromZero(chain + [block])
    ensures var w := RollbackWrites(DbOf(chain + [block], registry), block);
            && |w| == 2 && w[0] == WithCoins(DbOf(chain + [block], registry), Left(chain, block))
            && w[1] == WithCoins(DbOf(chain, registry), Left(chain, block))
  {
    RollbackStoredCoins(chain, block, registry);
    RollbackStored(chain, block, registry);
  }

  /** The six writes of a reorg: the block at the tip's height changes with the third, the coins with the fifth. */
  lemma ReorgWriteByWrite(chain: seq<Block>, oldBlock: Block, newBlock: Block, registry: Registry, db: Db)
    requires NumberedFromZero(chain + [oldBlock]) && newBlock.header.height == |chain|
    requires db == DbOf(chain + [oldBlock], registry)
    ensures var w := ReorgWrites(db, oldBlock, newBlock);
            && |w| == 6 && w[..2] == RollbackWrites(db, oldBlock)
            && Stores(w[2], chain + [newBlock], registry) && CoinsIn(w[2]) == CoinsIn(w[1]) == Left(chain, oldBlock)
            && CoinsIn(w[4]) == ApplyTxs(|chain|, Left(chain, oldBlock), newBlock.txs)
            && w[5] == Reorg(db, oldBlock, newBlock)
  {
    RollbackWriteByWrite(chain, oldBlock, registry);
    BlocksExtend(chain, newBlock);
  }

  /** The same for the six writes of a reorg. */
  lemma ReorgCrash(chain: seq<Block>, oldBlock: Block, newBlock: Block, registry: Registry)
    requires chain != [] && Linked(chain + [oldBlock]) && Linked(chain + [newBlock])
    ensures AllConsistent(registry, ReorgWrites(DbOf(chain + [oldBlock], registry), oldBlock, newBlock))
            <==> Lost(Replay(chain).utxo, oldBlock.txs) == {}
  {
    var db := DbOf(chain + [oldBlock], registry);
    RollbackCrash(chain, oldBlock, registry);
    ConsistentJoined(registry, RollbackWrites(db, oldBlock), ExtendWrites(RollbackBlock(db, oldBlock), newBlock));
    if Lost(Replay(chain).utxo, oldBlock.txs) == {} {
      RollbackStored(chain, oldBlock, registry);
      ExtendCrash(chain, newBlock, registry);
    }
  }

  // ── Telling a lagging state, and repairing it ──────────────────────────────

  /**
   The sentinel does not tell whether the coins lag: between the first two
   writes they lag without it, and between the last two it is set although they
   have caught up.
   */
  lemma SentinelIsNoEvidence(p: Params, registry: Registry, chain: seq<Block>, block: Block)
    requires GoodChain(p, registry, chain) && AcceptedOn(p, registry, chain, block) && block.txs != []
    ensures var w := ExtendWrites(DbOf(chain, registry), block);
            && w[0].sentinel == None && CoinsIn(w[0]) != Replay(chain + [block])
            && w[2].sentinel != None && CoinsIn(w[2]) == Replay(chain + [block])
  {
    AcceptedIsFresh(p, registry, chain, block);
    ExtendWriteByWrite(chain, block, registry, 0);
    ExtendWriteByWrite(chain, block, registry, 2);
    TipOutputs(p, registry, chain, block);
  }

  /** An accepted block with transactions leaves outputs that were not there before. */
  lemma TipOutputs(p: Params, registry: Registry, chain: seq<Block>, block: Block)
    requires GoodChain(p, registry, chain) && AcceptedOn(p, registry, chain, block) && block.txs != []
    ensures TxsOuts(block.txs) <= Replay(chain + [block]).utxo.Keys
    ensures !(TxsOuts(block.txs) <= Replay(chain).utxo.Keys)
  {
    AcceptedIsFresh(p, registry, chain, block);
    AcceptedFacts(p, registry, chain, block);
    BlocksExtend(chain, block);
    forall ref | ref in TxsOuts(block.txs) ensures ref in Replay(chain + [block]).utxo {
      AppliedRef(block.header.height, Replay(chain), block.txs, ref);
    }
    var tx := block.txs[0];
    assert Validation.ValidTx(tx, Replay(chain).utxo);
    var ref := TxOutRef(TxHash(tx), 0);
    TxsOutsMember(block.txs, ref);
  }

  /** The tip's outputs do tell: a state whose tip has transactions lags exactly when one of its outputs is missing. */
  lemma LagShowsInOutputs(p: Params, registry: Registry, chain: seq<Block>, block: Block, db: Db)
    requires GoodChain(p, registry, chain) && AcceptedOn(p, registry, chain, block) && block.txs != []
    requires CoinsIn(db) == Replay(chain) || CoinsIn(db) == Replay(chain + [block])
    ensures CoinsIn(db) == Replay(chain + [block]) <==> TxsOuts(block.txs) <= db.utxo.Keys
  {
    TipOutputs(p, registry, chain, block);
  }

  /** And applying the stored tip once more repairs a lagging state completely. */
  lemma ReapplyingRepairs(chain: seq<Block>, block: Block, registry: Registry, db: Db)
    requires block.header.height == |chain|
    requires Stores(db, chain + [block], registry) && CoinsIn(db) == Replay(chain)
    ensures ApplyBlock(db, block) == DbOf(chain + [block], registry)
  {
    BlocksExtend(chain, block);
  }

  /**
   A reorg repairs a state that lags by the tip it replaces, as far as the old tip
   names no output that was there before; for those it needs the new one.
   */
  lemma ReorgRepairs(chain: seq<Block>, oldBlock: Block, newBlock: Block, registry: Registry, db: Db)
    requires NumberedFromZero(chain + [oldBlock]) && newBlock.header.height == |chain|
    requires Stores(db, chain + [oldBlock], registry) && CoinsIn(db) == Replay(chain)
    ensures Reorg(db, oldBlock, newBlock) == DbOf(chain + [newBlock], registry)
            <==> AllMadeUp(TxsOuts(oldBlock.txs) * Replay(chain).utxo.Keys, newBlock)
  {
    var utxo, again := Replay(chain).utxo, TxsOuts(oldBlock.txs) * Replay(chain).utxo.Keys;
    TipRecords(chain, oldBlock);
    RollbackUnapplied(|chain|, Replay(chain), oldBlock.txs);
    assert utxo - TxsOuts(oldBlock.txs) == utxo - again;
    ReorgLacking(chain, oldBlock, newBlock, registry, db, again);
  }
}
