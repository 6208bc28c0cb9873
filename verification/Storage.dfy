/**
 The six trees of the persistent store as one value, and what each durable write
 does to them. A multi-tree transaction is one write.
 */
module Storage {
  import opened Types
  import opened Ledger
  import Validators

  datatype Tip = Tip(height: nat, hash: Digest)

  /** The `meta` tree holds the tip record and the crash sentinel. */
  datatype Db = Db(
    blocksH: map<nat, Block>,
    blocksIdx: map<Digest, nat>,
    utxo: Utxo,
    spent: SpentLog,
    registry: Validators.Registry,
    tip: Option<Tip>,
    sentinel: Option<nat>)

  const EMPTY_DB: Db := Db(map[], map[], map[], map[], map[], None, None)

  function CoinsIn(db: Db): Coins {
    Coins(db.utxo, db.spent)
  }

  function WithCoins(db: Db, c: Coins): Db {
    db.(utxo := c.utxo, spent := c.spent)
  }

  /** Height map, hash index and tip record are written together; whatever was at that height is overwritten. */
  function InsertBlock(db: Db, block: Block): Db {
    var height, hash := block.header.height, BlockHash(block);
    db.(blocksH := db.blocksH[height := block],
        blocksIdx := db.blocksIdx[hash := height],
        tip := Some(Tip(height, hash)))
  }

  function ApplyCoins(db: Db, block: Block): Db {
    WithCoins(db, ApplyTxs(block.header.height, CoinsIn(db), block.txs))
  }

  function RollbackCoins(db: Db, block: Block): Db {
    WithCoins(db, RollbackTxs(block.header.height, CoinsIn(db), block.txs))
  }

  function ParentTip(db: Db, height: nat): Option<Tip> {
    if height > 0 && height - 1 in db.blocksH then Some(Tip(height - 1, BlockHash(db.blocksH[height - 1]))) else None
  }

  function DropBlock(db: Db, block: Block): Db {
    db.(blocksH := db.blocksH - {block.header.height},
        blocksIdx := db.blocksIdx - {BlockHash(block)},
        tip := ParentTip(db, block.header.height))
  }

  // ── Durable states, write by write ─────────────────────────────────────────

  function InsertWrites(db: Db, block: Block): seq<Db> {
    [InsertBlock(db, block)]
  }

  /** Sentinel set, coins and records changed in one transaction, sentinel cleared. */
  function ApplyWrites(db: Db, block: Block): seq<Db> {
    var begun := db.(sentinel := Some(block.header.height));
    var applied := ApplyCoins(begun, block);
    [begun, applied, applied.(sentinel := None)]
  }

  function RollbackWrites(db: Db, block: Block): seq<Db> {
    var undone := RollbackCoins(db, block);
    [undone, DropBlock(undone, block)]
  }

  function ApplyBlock(db: Db, block: Block): Db {
    ApplyCoins(db, block).(sentinel := None)
  }

  function RollbackBlock(db: Db, block: Block): Db {
    DropBlock(RollbackCoins(db, block), block)
  }

  // ── Loops over the outputs of one transaction ──────────────────────────────

  method AddOutputs(utxo: Utxo, tx: Transaction) returns (u: Utxo)
    ensures u == utxo + Outs(tx)
  {
    u := utxo;
    for index := 0 to |tx.outputs|
      invariant u == utxo + OutsUpTo(tx, index)
    {
      OutsUpToStep(tx, index);
      PlusUpdate(utxo, OutsUpTo(tx, index), TxOutRef(TxHash(tx), index), tx.outputs[index]);
      u := u[TxOutRef(TxHash(tx), index) := tx.outputs[index]];
    }
    OutsUpToAll(tx);
  }

  method RemoveOutputs(utxo: Utxo, tx: Transaction) returns (u: Utxo)
    ensures u == utxo - Outs(tx).Keys
  {
    u := utxo;
    for index := 0 to |tx.outputs|
      invariant u == utxo - OutsUpTo(tx, index).Keys
    {
      OutsUpToStep(tx, index);
      u := u - {TxOutRef(TxHash(tx), index)};
    }
    OutsUpToAll(tx);
  }

  // ── Reading blocks back ────────────────────────────────────────────────────

  function StoredFrom(blocksH: map<nat, Block>, keys: seq<nat>, height: nat): seq<Block>
    requires forall k :: k in keys ==> k in blocksH
  {
    if keys == [] then []
    else
      var last := keys[|keys| - 1];
      StoredFrom(blocksH, keys[..|keys| - 1], height) + (if last >= height then [blocksH[last]] else [])
  }

  /** The stored blocks from a height on, in ascending height. */
  function BlocksFrom(blocksH: map<nat, Block>, height: nat): seq<Block> {
    StoredFrom(blocksH, Validators.KeyOrder(blocksH.Keys), height)
  }
}
