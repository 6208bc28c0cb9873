/**
 The persistent store. Each method is proved against the value of the six trees
 and against the list of durable states it leaves behind on the way.
 */
module SledStores {
  import opened Types
  import opened Ledger
  import opened Validators
  import Conservation
  import opened Storage

  lemma TakeOne(height: nat, utxo: Utxo, spent: SpentLog, refs: set<TxOutRef>, ref: TxOutRef)
    ensures utxo - (refs + {ref}) == utxo - refs - {ref}
    ensures spent + Consumed(height, utxo, refs + {ref})
         == if ref in utxo - refs
            then (spent + Consumed(height, utxo, refs))[SpentKey(height, ref) := utxo[ref]]
            else spent + Consumed(height, utxo, refs)
  {
  }

  lemma PutBackOne(height: nat, utxo: Utxo, spent: SpentLog, refs: set<TxOutRef>, ref: TxOutRef)
    ensures var key, left := SpentKey(height, ref), spent - KeysAt(height, refs);
            && spent - KeysAt(height, refs + {ref}) == left - {key}
            && utxo + Restored(height, spent, refs + {ref})
            == if key in left
               then (utxo + Restored(height, spent, refs))[ref := spent[key]]
               else utxo + Restored(height, spent, refs)
  {
    var key, left := SpentKey(height, ref), spent - KeysAt(height, refs);
    assert KeysAt(height, refs + {ref}) == KeysAt(height, refs) + {key};
    assert key in KeysAt(height, refs) <==> ref in refs;
  }

  class SledStore {
    var blocksH: map<nat, Block>
    var blocksIdx: map<Digest, nat>
    var utxo: Utxo
    var spentH: SpentLog
    var validators: Registry
    var metaTip: Option<Tip>
    var metaApplyInProgress: Option<nat>

    /** Every state that was ever on disk, oldest first. */
    ghost var journal: seq<Db>

    ghost function Model(): Db
      reads this
    {
      Db(blocksH, blocksIdx, utxo, spentH, validators, metaTip, metaApplyInProgress)
    }

    constructor ()
      ensures Model() == EMPTY_DB && journal == []
    {
      blocksH, blocksIdx, utxo, spentH, validators := map[], map[], map[], map[], map[];
      metaTip, metaApplyInProgress := None, None;
      journal := [];
    }

    // ── BlockStore ───────────────────────────────────────────────────────────

    method GetByHeight(height: nat) returns (block: Option<Block>)
      ensures block == if height in blocksH then Some(blocksH[height]) else None
    {
      block := if height in blocksH then Some(blocksH[height]) else None;
    }

    method GetByHash(hash: Digest) returns (block: Option<Block>)
      ensures block.Some? <==> hash in blocksIdx && blocksIdx[hash] in blocksH
      ensures block.Some? ==> block.value == blocksH[blocksIdx[hash]]
    {
      if hash !in blocksIdx {
        return None;
      }
      block := GetByHeight(blocksIdx[hash]);
    }

    method Insert(block: Block)
      modifies this
      ensures Model() == InsertBlock(old(Model()), block)
      ensures journal == old(journal) + InsertWrites(old(Model()), block)
    {
      var height, hash := block.header.height, BlockHash(block);
      blocksH, blocksIdx, metaTip := blocksH[height := block], blocksIdx[hash := height], Some(Tip(height, hash));
      journal := journal + [Model()];
    }

    method GetTip() returns (tip: Option<Tip>)
      ensures tip == metaTip
    {
      tip := metaTip;
    }

    method IterFrom(height: nat) returns (blocks: seq<Block>)
      ensures blocks == BlocksFrom(blocksH, height)
    {
      blocks := [];
      var keys := KeyOrder(blocksH.Keys);
      for k := 0 to |keys|
        invariant blocks == StoredFrom(blocksH, keys[..k], height)
      {
        assert keys[..k + 1][..k] == keys[..k];
        assert keys[k] in keys;
        if keys[k] >= height {
          blocks := blocks + [blocksH[keys[k]]];
        }
      }
      assert keys[..|keys|] == keys;
    }

    // ── UtxoStore ────────────────────────────────────────────────────────────

    method ApplyBlock(block: Block)
      modifies this
      ensures Model() == Storage.ApplyBlock(old(Model()), block)
      ensures journal == old(journal) + ApplyWrites(old(Model()), block)
    {
      var height := block.header.height;
      metaApplyInProgress := Some(height);
      journal := journal + [Model()];

      utxo, spentH := ApplyAll(height, utxo, spentH, block.txs);
      journal := journal + [Model()];

      metaApplyInProgress := None;
      journal := journal + [Model()];
    }

    /** The body of the multi-tree transaction over `utxo` and `spent_h`. */
    static method ApplyAll(height: nat, utxo: Utxo, spent: SpentLog, txs: seq<Transaction>)
      returns (u: Utxo, s: SpentLog)
      ensures Coins(u, s) == ApplyTxs(height, Coins(utxo, spent), txs)
    {
      u, s := utxo, spent;
      for i := 0 to |txs|
        invariant Coins(u, s) == ApplyTxs(height, Coins(utxo, spent), txs[..i])
      {
        assert txs[..i + 1][..i] == txs[..i];
        u, s := ApplyOne(height, u, s, txs[i]);
      }
      assert txs[..|txs|] == txs;
    }

    /** Inputs recorded and removed one by one, then outputs inserted. */
    static method ApplyOne(height: nat, utxo: Utxo, spent: SpentLog, tx: Transaction) returns (u: Utxo, s: SpentLog)
      ensures Coins(u, s) == ApplyTx(height, Coins(utxo, spent), tx)
    {
      u, s := utxo, spent;
      for j := 0 to |tx.inputs|
        invariant u == utxo - InRefs(tx.inputs[..j])
        invariant s == spent + Consumed(height, utxo, InRefs(tx.inputs[..j]))
      {
        assert tx.inputs[..j + 1][..j] == tx.inputs[..j];
        var ref := tx.inputs[j].outRef;
        TakeOne(height, utxo, spent, InRefs(tx.inputs[..j]), ref);
        if ref in u {
          s := s[SpentKey(height, ref) := u[ref]];
        }
        u := u - {ref};
      }
      assert tx.inputs[..|tx.inputs|] == tx.inputs;
      InRefsAreIns(tx);
      u := AddOutputs(u, tx);
    }

    method RollbackBlock(block: Block)
      modifies this
      ensures Model() == Storage.RollbackBlock(old(Model()), block)
      ensures journal == old(journal) + RollbackWrites(old(Model()), block)
    {
      var height := block.header.height;
      utxo, spentH := RollbackAll(height, utxo, spentH, block.txs);
      journal := journal + [Model()];

      var newTip := None;
      if height > 0 {
        var parent := GetByHeight(height - 1);
        if parent.Some? {
          newTip := Some(Tip(height - 1, BlockHash(parent.value)));
        }
      }
      blocksH, blocksIdx, metaTip := blocksH - {height}, blocksIdx - {BlockHash(block)}, newTip;
      journal := journal + [Model()];
    }

    static method RollbackAll(height: nat, utxo: Utxo, spent: SpentLog, txs: seq<Transaction>)
      returns (u: Utxo, s: SpentLog)
      ensures Coins(u, s) == RollbackTxs(height, Coins(utxo, spent), txs)
    {
      u, s := utxo, spent;
      assert txs[..|txs|] == txs;
      for i := |txs| downto 0
        invariant RollbackTxs(height, Coins(u, s), txs[..i]) == RollbackTxs(height, Coins(utxo, spent), txs)
      {
        assert txs[..i + 1][..i] == txs[..i];
        u, s := RollbackOne(height, u, s, txs[i]);
      }
    }

    /** Outputs removed, then each input that has a record put back and its record erased. */
    static method RollbackOne(height: nat, utxo: Utxo, spent: SpentLog, tx: Transaction) returns (u: Utxo, s: SpentLog)
      ensures Coins(u, s) == RollbackTx(height, Coins(utxo, spent), tx)
    {
      s := spent;
      u := RemoveOutputs(utxo, tx);
      ghost var cleared := u;
      for j := 0 to |tx.inputs|
        invariant u == cleared + Restored(height, spent, InRefs(tx.inputs[..j]))
        invariant s == spent - KeysAt(height, InRefs(tx.inputs[..j]))
      {
        assert tx.inputs[..j + 1][..j] == tx.inputs[..j];
        var ref := tx.inputs[j].outRef;
        var key := SpentKey(height, ref);
        PutBackOne(height, cleared, spent, InRefs(tx.inputs[..j]), ref);
        if key in s {
          u := u[ref := s[key]];
          s := s - {key};
        }
      }
      assert tx.inputs[..|tx.inputs|] == tx.inputs;
      InRefsAreIns(tx);
    }

    method GetBalance(address: Address) returns (balance: U64)
      ensures balance == Min(Conservation.Balance(utxo, address), U64_MAX)
    {
      balance := 0;
      Conservation.BalanceBegins(utxo, address);
      var rest := utxo.Keys;
      while rest != {}
        invariant rest <= utxo.Keys
        invariant balance == Min(Conservation.Balance(utxo - rest, address), U64_MAX)
        decreases rest
      {
        var ref :| ref in rest;
        Conservation.BalanceStep(utxo, rest, ref, address);
        if utxo[ref].address == address {
          balance := SaturatingAdd(balance, utxo[ref].amount);
        }
        rest := rest - {ref};
      }
      Conservation.BalanceEnds(utxo, address);
    }

    // ── ValidatorStore ───────────────────────────────────────────────────────

    method AllActive(slot: U64) returns (list: seq<Validator>)
      ensures list == ActiveList(validators, slot)
    {
      list := [];
      var keys := KeyOrder(validators.Keys);
      for k := 0 to |keys|
        invariant list == ActiveOf(validators, keys[..k], slot)
      {
        assert keys[..k + 1][..k] == keys[..k];
        assert keys[k] in keys;
        var v := validators[keys[k]];
        if Active(v, slot) {
          list := list + [v];
        }
      }
      assert keys[..|keys|] == keys;
    }

    method Upsert(v: Validator) returns (ok: bool)
      modifies this`validators, this`journal
      ensures ok <==> v.address == AddressOf(v.pubkey)
      ensures Model() == if ok then old(Model()).(registry := old(validators)[v.address := v]) else old(Model())
      ensures journal == old(journal) + (if ok then [Model()] else [])
      ensures old(KeyedByAddress(validators)) ==> KeyedByAddress(validators)
    {
      ok := v.address == AddressOf(v.pubkey);
      if ok {
        validators := validators[v.address := v];
        journal := journal + [Model()];
      }
    }
  }
}
