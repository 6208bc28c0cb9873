/**
 The in-memory store. Its undo log is one flat list per height, put back after
 all of the block's outputs are gone, so it undoes fewer blocks than the
 persistent store does; the lemmas say exactly which.
 */
module MemoryStores {
  import opened Types
  import opened Ledger
  import Sorting
  import Storage
  import opened Validators
  import opened Conservation

  type UndoList = seq<(TxOutRef, TxOutput)>

  // ── The undo list as a value ───────────────────────────────────────────────

  /** What spending inputs one by one captures, in order. */
  function CapturedBy(utxo: Utxo, inputs: seq<TxInput>): UndoList {
    if inputs == [] then []
    else
      var init, ref := inputs[..|inputs| - 1], inputs[|inputs| - 1].outRef;
      CapturedBy(utxo, init) + (if ref in utxo && ref !in InRefs(init) then [(ref, utxo[ref])] else [])
  }

  /** The coins alone; the height matters only to the persistent store's records. */
  function ApplyUtxo(utxo: Utxo, txs: seq<Transaction>): Utxo {
    if txs == [] then utxo
    else ApplyUtxo(utxo, txs[..|txs| - 1]) - Ins(txs[|txs| - 1]) + Outs(txs[|txs| - 1])
  }

  function Captured(utxo: Utxo, txs: seq<Transaction>): UndoList {
    if txs == [] then []
    else
      var init := txs[..|txs| - 1];
      Captured(utxo, init) + CapturedBy(ApplyUtxo(utxo, init), txs[|txs| - 1].inputs)
  }

  function Reinsert(utxo: Utxo, list: UndoList): Utxo {
    if list == [] then utxo
    else Reinsert(utxo, list[..|list| - 1])[list[|list| - 1].0 := list[|list| - 1].1]
  }

  function FlatRollback(utxo: Utxo, list: UndoList, txs: seq<Transaction>): Utxo {
    Reinsert(utxo - TxsOuts(txs), list)
  }

  // ── When the flat list suffices ────────────────────────────────────────────

  lemma {:induction false} ReinsertAll(utxo: Utxo, a: UndoList, b: UndoList)
    ensures Reinsert(utxo, a + b) == Reinsert(Reinsert(utxo, a), b)
  {
    if b == [] {
      assert a + b == a;
    } else {
      assert (a + b)[..|a + b| - 1] == a + b[..|b| - 1];
      ReinsertAll(utxo, a, b[..|b| - 1]);
    }
  }

  lemma {:induction false} SameUtxo(height: nat, c: Coins, txs: seq<Transaction>)
    ensures ApplyTxs(height, c, txs).utxo == ApplyUtxo(c.utxo, txs)
  {
    if txs != [] {
      SameUtxo(height, c, txs[..|txs| - 1]);
    }
  }

  /** What the list holds, as a map. */
  function Gone(utxo: Utxo, txs: seq<Transaction>): Utxo {
    if txs == [] then map[]
    else Gone(utxo, txs[..|txs| - 1]) + Part(ApplyUtxo(utxo, txs[..|txs| - 1]), Ins(txs[|txs| - 1]))
  }

  lemma {:induction false} CapturedByIsPart(base: Utxo, utxo: Utxo, inputs: seq<TxInput>)
    ensures Reinsert(base, CapturedBy(utxo, inputs)) == base + Part(utxo, InRefs(inputs))
  {
    if inputs == [] {
      assert base + Part(utxo, {}) == base;
    } else {
      var init, ref := inputs[..|inputs| - 1], inputs[|inputs| - 1].outRef;
      CapturedByIsPart(base, utxo, init);
      PartStep(utxo, InRefs(init), ref);
      if ref in utxo && ref !in InRefs(init) {
        var list := CapturedBy(utxo, inputs);
        assert list[..|list| - 1] == CapturedBy(utxo, init);
        PlusUpdate(base, Part(utxo, InRefs(init)), ref, utxo[ref]);
      } else {
        assert CapturedBy(utxo, inputs) == CapturedBy(utxo, init);
      }
    }
  }

  lemma PartStep(utxo: Utxo, refs: set<TxOutRef>, ref: TxOutRef)
    ensures Part(utxo, refs + {ref})
         == if ref in utxo && ref !in refs then Part(utxo, refs)[ref := utxo[ref]] else Part(utxo, refs)
  {
  }

  lemma {:induction false} CapturedIsGone(base: Utxo, utxo: Utxo, txs: seq<Transaction>)
    ensures Reinsert(base, Captured(utxo, txs)) == base + Gone(utxo, txs)
  {
    if txs == [] {
      assert base + Gone(utxo, txs) == base;
    } else {
      var init, last := txs[..|txs| - 1], txs[|txs| - 1];
      var u := ApplyUtxo(utxo, init);
      CapturedIsGone(base, utxo, init);
      ReinsertAll(base, Captured(utxo, init), CapturedBy(u, last.inputs));
      CapturedByIsPart(Reinsert(base, Captured(utxo, init)), u, last.inputs);
      InRefsAreIns(last);
      PlusAssociates(base, Gone(utxo, init), Part(u, Ins(last)));
    }
  }

  lemma PlusAssociates(a: Utxo, b: Utxo, c: Utxo)
    ensures a + b + c == a + (b + c)
  {
  }

  /** The list and the persistent store's records hold the same outputs. */
  lemma {:induction false} GoneIsRecorded(height: nat, c: Coins, txs: seq<Transaction>, ref: TxOutRef)
    requires NoRecordsAt(height, c.spent)
    ensures var key, spent := SpentKey(height, ref), ApplyTxs(height, c, txs).spent;
            && (ref in Gone(c.utxo, txs) <==> key in spent)
            && (key in spent ==> Gone(c.utxo, txs)[ref] == spent[key])
  {
    if txs != [] {
      GoneIsRecorded(height, c, txs[..|txs| - 1], ref);
      SameUtxo(height, c, txs[..|txs| - 1]);
    }
  }

  lemma FlatRollbackRef(utxo: Utxo, txs: seq<Transaction>, ref: TxOutRef)
    requires FreshOuts(utxo, txs)
    ensures var r := FlatRollback(ApplyUtxo(utxo, txs), Captured(utxo, txs), txs);
            && (ref in utxo ==> ref in r && r[ref] == utxo[ref])
            && (ref !in utxo ==> (ref in r <==> SpentAfterCreated(ref, txs)))
  {
    var c := Coins(utxo, map[]);
    SameUtxo(0, c, txs);
    CapturedIsGone(ApplyUtxo(utxo, txs) - TxsOuts(txs), utxo, txs);
    GoneIsRecorded(0, c, txs, ref);
    ApplyAt(0, c, txs, ref);
    if SpentAfterCreated(ref, txs) {
      SpentAfterCreatedWasCreated(ref, txs);
    }
  }

  ghost predicate NoChainedSpend(txs: seq<Transaction>) {
    forall ref :: !SpentAfterCreated(ref, txs)
  }

  lemma FlatRollbackSuffices(utxo: Utxo, txs: seq<Transaction>, r: Utxo)
    requires FreshOuts(utxo, txs) && NoChainedSpend(txs)
    requires r == FlatRollback(ApplyUtxo(utxo, txs), Captured(utxo, txs), txs)
    ensures r == utxo
  {
    forall ref
      ensures ref in r <==> ref in utxo
      ensures ref in utxo ==> r[ref] == utxo[ref]
    {
      FlatRollbackRef(utxo, txs, ref);
    }
  }

  /**
   The flat list undoes a block with fresh outputs exactly when no transaction
   of the block spends an output that an earlier one created. Otherwise those
   outputs stay behind.
   */
  lemma FlatRollbackUndoes(utxo: Utxo, txs: seq<Transaction>)
    requires FreshOuts(utxo, txs)
    ensures FlatRollback(ApplyUtxo(utxo, txs), Captured(utxo, txs), txs) == utxo <==> NoChainedSpend(txs)
  {
    var r := FlatRollback(ApplyUtxo(utxo, txs), Captured(utxo, txs), txs);
    if NoChainedSpend(txs) {
      FlatRollbackSuffices(utxo, txs, r);
    } else {
      var ref :| SpentAfterCreated(ref, txs);
      FlatRollbackRef(utxo, txs, ref);
      SpentAfterCreatedWasCreated(ref, txs);
    }
  }

  /** A block whose inputs all existed before it is undone to the same coins by both stores. */
  lemma StoresAgree(height: nat, c: Coins, txs: seq<Transaction>)
    requires FreshOuts(c.utxo, txs) && NoRecordsAt(height, c.spent) && TxsIns(txs) <= c.utxo.Keys
    ensures FlatRollback(ApplyUtxo(c.utxo, txs), Captured(c.utxo, txs), txs)
         == RollbackTxs(height, ApplyTxs(height, c, txs), txs).utxo
  {
    FreshLosesNothing(c.utxo, txs);
    RollbackUndoesApply(height, c, txs);
    assert NoChainedSpend(txs) by {
      forall ref ensures !SpentAfterCreated(ref, txs) {
        NoSpendOfOwn(txs, ref);
      }
    }
    FlatRollbackUndoes(c.utxo, txs);
  }

  lemma {:induction false} NoSpendOfOwn(txs: seq<Transaction>, ref: TxOutRef)
    requires NoInnerSpend(txs)
    ensures !SpentAfterCreated(ref, txs)
  {
    if txs != [] {
      NoSpendOfOwn(txs[..|txs| - 1], ref);
    }
  }

  // ── The store ──────────────────────────────────────────────────────────────

  class MemoryStore {
    var blocks: map<nat, Block>
    var index: map<Digest, nat>
    var utxo: Utxo
    var spent: map<nat, UndoList>
    var validators: Registry

    constructor ()
      ensures blocks == map[] && index == map[] && utxo == map[] && spent == map[] && validators == map[]
    {
      blocks, index, utxo, spent, validators := map[], map[], map[], map[], map[];
    }

    method GetByHash(hash: Digest) returns (block: Option<Block>)
      ensures block.Some? <==> hash in index && index[hash] in blocks
      ensures block.Some? ==> block.value == blocks[index[hash]]
    {
      block := if hash in index && index[hash] in blocks then Some(blocks[index[hash]]) else None;
    }

    method Insert(block: Block)
      modifies this`blocks, this`index
      ensures blocks == old(blocks)[block.header.height := block]
      ensures index == old(index)[BlockHash(block) := block.header.height]
    {
      blocks := blocks[block.header.height := block];
      index := index[BlockHash(block) := block.header.height];
    }

    /** The highest stored block. */
    method GetTip() returns (tip: Option<Storage.Tip>)
      ensures tip.None? <==> blocks == map[]
      ensures tip.Some? ==>
        && tip.value.height in blocks && tip.value.hash == BlockHash(blocks[tip.value.height])
        && forall h :: h in blocks ==> h <= tip.value.height
    {
      var keys := KeyOrder(blocks.Keys);
      if keys == [] {
        assert blocks.Keys == {};
        return None;
      }
      var height := keys[|keys| - 1];
      assert height in keys;
      return Some(Storage.Tip(height, BlockHash(blocks[height])));
    }

    method ApplyBlock(block: Block)
      modifies this`utxo, this`spent
      ensures utxo == ApplyUtxo(old(utxo), block.txs)
      ensures spent == old(spent)[block.header.height := Captured(old(utxo), block.txs)]
    {
      var captured;
      utxo, captured := ApplyAll(utxo, block.txs);
      spent := spent[block.header.height := captured];
    }

    static method ApplyAll(utxo: Utxo, txs: seq<Transaction>) returns (u: Utxo, captured: UndoList)
      ensures u == ApplyUtxo(utxo, txs) && captured == Captured(utxo, txs)
    {
      u, captured := utxo, [];
      for i := 0 to |txs|
        invariant u == ApplyUtxo(utxo, txs[..i]) && captured == Captured(utxo, txs[..i])
      {
        assert txs[..i + 1][..i] == txs[..i];
        var taken;
        u, taken := TakeInputs(u, txs[i]);
        captured := captured + taken;
        u := Storage.AddOutputs(u, txs[i]);
      }
      assert txs[..|txs|] == txs;
    }

    static method TakeInputs(utxo: Utxo, tx: Transaction) returns (u: Utxo, taken: UndoList)
      ensures u == utxo - Ins(tx) && taken == CapturedBy(utxo, tx.inputs)
    {
      u, taken := utxo, [];
      for j := 0 to |tx.inputs|
        invariant u == utxo - InRefs(tx.inputs[..j])
        invariant taken == CapturedBy(utxo, tx.inputs[..j])
      {
        assert tx.inputs[..j + 1][..j] == tx.inputs[..j];
        var ref := tx.inputs[j].outRef;
        if ref in u {
          taken := taken + [(ref, u[ref])];
        }
        u := u - {ref};
      }
      assert tx.inputs[..|tx.inputs|] == tx.inputs;
      InRefsAreIns(tx);
    }

    /** Blocks and index stay as they are; a height without a list only loses the block's outputs. */
    method RollbackBlock(block: Block)
      modifies this`utxo, this`spent
      ensures var list := if block.header.height in old(spent) then old(spent)[block.header.height] else [];
              utxo == FlatRollback(old(utxo), list, block.txs)
      ensures spent == old(spent) - {block.header.height}
    {
      var u := DropOutputs(utxo, block.txs);
      if block.header.height in spent {
        u := PutBack(u, spent[block.header.height]);
      }
      utxo, spent := u, spent - {block.header.height};
    }

    static method DropOutputs(utxo: Utxo, txs: seq<Transaction>) returns (u: Utxo)
      ensures u == utxo - TxsOuts(txs)
    {
      u := utxo;
      assert txs[..|txs|] == txs;
      for i := |txs| downto 0
        invariant u - TxsOuts(txs[..i]) == utxo - TxsOuts(txs)
      {
        assert txs[..i + 1][..i] == txs[..i];
        ghost var before := u;
        u := Storage.RemoveOutputs(u, txs[i]);
        assert before - (TxsOuts(txs[..i]) + Outs(txs[i]).Keys) == u - TxsOuts(txs[..i]);
      }
      assert u - {} == u;
    }

    static method PutBack(utxo: Utxo, list: UndoList) returns (u: Utxo)
      ensures u == Reinsert(utxo, list)
    {
      u := utxo;
      for k := 0 to |list|
        invariant u == Reinsert(utxo, list[..k])
      {
        assert list[..k + 1][..k] == list[..k];
        u := u[list[k].0 := list[k].1];
      }
      assert list[..|list|] == list;
    }

    /** An unchecked sum, where the persistent store saturates: they agree as long as the balance fits. */
    method GetBalance(address: Address) returns (balance: U64)
      ensures balance == WrapU64(Balance(utxo, address))
    {
      balance := 0;
      BalanceBegins(utxo, address);
      var rest := utxo.Keys;
      while rest != {}
        invariant rest <= utxo.Keys
        invariant balance == WrapU64(Balance(utxo - rest, address))
        decreases rest
      {
        var ref :| ref in rest;
        BalanceStep(utxo, rest, ref, address);
        balance := AddOwned(balance, utxo[ref], address, Balance(utxo - rest, address));
        rest := rest - {ref};
      }
      BalanceEnds(utxo, address);
    }

    static method AddOwned(sum: U64, output: TxOutput, address: Address, ghost exact: nat) returns (more: U64)
      requires sum == WrapU64(exact)
      ensures more == WrapU64(exact + if output.address == address then output.amount else 0)
    {
      more := sum;
      if output.address == address {
        WrapWrapped(exact, output.amount);
        more := WrapU64(sum + output.amount);
      }
    }

    /** Collected in whatever order the hash map yields, then sorted by address. */
    method AllActive(slot: U64) returns (list: seq<Validator>)
      requires KeyedByAddress(validators)
      ensures list == ActiveList(validators, slot)
    {
      var collected: seq<Validator> := [];
      var rest := validators.Keys;
      while rest != {}
        invariant rest <= validators.Keys
        invariant forall v :: v in collected <==>
          v.address in validators && v.address !in rest && validators[v.address] == v && Active(v, slot)
        invariant forall i, j :: 0 <= i < j < |collected| ==> collected[i].address != collected[j].address
        decreases rest
      {
        var a :| a in rest;
        rest := rest - {a};
        if Active(validators[a], slot) {
          assert forall v :: v in collected ==> v.address != a;
          collected := collected + [validators[a]];
        }
      }
      list := Sorting.SortUnstableByKey(collected, (v: Validator) => v.address);
      SortedIsActiveList(validators, slot, collected, list);
    }
  }

  lemma SortedIsActiveList(registry: Registry, slot: U64, collected: seq<Validator>, list: seq<Validator>)
    requires KeyedByAddress(registry)
    requires forall v :: v in collected <==> v.address in registry && registry[v.address] == v && Active(v, slot)
    requires forall i, j :: 0 <= i < j < |collected| ==> collected[i].address != collected[j].address
    requires multiset(list) == multiset(collected) && Sorting.SortedBy(list, (v: Validator) => v.address)
    ensures list == ActiveList(registry, slot)
  {
    Sorting.SameElements(list, collected);
    forall i, j | 0 <= i < j < |list| ensures list[i].address < list[j].address {
      if list[i].address == list[j].address {
        assert list[i] in collected && list[j] in collected;
        assert list[i] == list[j];
        Sorting.Once(collected, list[i]);
        Sorting.Twice(list, i, j);
      }
    }
    ActiveListIs(registry, slot);
    ActiveListUnique(list, ActiveList(registry, slot));
  }
}
