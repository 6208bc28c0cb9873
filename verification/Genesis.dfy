/**
 The state every run starts in: one block of allocations, applied to empty stores.
 */
module Genesis {
  import opened Types
  import opened Ledger
  import opened Merkle
  import opened Validators
  import Validation
  import opened Storage
  import opened Chain
  import opened Durability
  import opened Conservation
  import opened Nodes
  import Runs

  function GenesisState(timestamp: I64, accounts: seq<GenesisAccount>, registry: Registry): Runs.NodeState {
    Runs.NodeState(Extend(EMPTY_DB, GenesisBlock(timestamp, accounts)).(registry := registry), map[])
  }

  lemma AllocationsFit(accounts: seq<GenesisAccount>, tx: Transaction)
    requires tx in AllocationTxs(accounts)
    ensures tx.inputs == [] && Validation.NoOverflow(tx) && OutTotal(tx.outputs) == tx.outputs[0].amount
  {
    assert tx.outputs[..0] == [];
  }

  lemma GenesisIsSound(p: Params, timestamp: I64, accounts: seq<GenesisAccount>, registry: Registry)
    ensures Runs.Sound(p, registry, GenesisState(timestamp, accounts, registry))
    ensures StoredChain(GenesisState(timestamp, accounts, registry).db) == [GenesisBlock(timestamp, accounts)]
  {
    var genesis := GenesisBlock(timestamp, accounts);
    GenesisIsGood(p, timestamp, accounts, registry);
    GenesisStored(timestamp, accounts, registry);
    StoredChainOf([genesis], registry);
  }

  lemma GenesisIsGood(p: Params, timestamp: I64, accounts: seq<GenesisAccount>, registry: Registry)
    ensures GoodChain(p, registry, [GenesisBlock(timestamp, accounts)])
  {
    forall tx | tx in AllocationTxs(accounts) ensures tx.inputs == [] && Validation.NoOverflow(tx) {
      AllocationsFit(accounts, tx);
    }
  }

  lemma GenesisStored(timestamp: I64, accounts: seq<GenesisAccount>, registry: Registry)
    ensures GenesisState(timestamp, accounts, registry).db == DbOf([GenesisBlock(timestamp, accounts)], registry)
  {
    ExtendStored([], GenesisBlock(timestamp, accounts), map[]);
    assert DbOf([], map[]) == EMPTY_DB;
    assert [] + [GenesisBlock(timestamp, accounts)] == [GenesisBlock(timestamp, accounts)];
  }

  function BalanceTotal(accounts: seq<GenesisAccount>): nat {
    if accounts == [] then 0 else BalanceTotal(accounts[..|accounts| - 1]) + accounts[|accounts| - 1].balance
  }

  /** Two equal entries are one transaction: every balance is minted exactly when no entry of value is repeated. */
  lemma GenesisMints(timestamp: I64, accounts: seq<GenesisAccount>, registry: Registry)
    requires forall a :: a in accounts ==> a.balance > 0
    ensures Value(GenesisState(timestamp, accounts, registry).db.utxo) == BalanceTotal(accounts)
            <==> forall i, j :: 0 <= i < j < |accounts| ==> accounts[i] != accounts[j]
  {
    var txs := AllocationTxs(accounts);
    GenesisCoinsAre(timestamp, accounts, registry);
    forall tx | tx in txs ensures OutTotal(tx.outputs) > 0 {
      AllocationsFit(accounts, tx);
      var i :| 0 <= i < |txs| && txs[i] == tx;
      assert accounts[i] in accounts;
    }
    NewOutsWorth(txs);
    MintedTotal(accounts);
    SameRepeats(accounts);
  }

  lemma GenesisCoinsAre(timestamp: I64, accounts: seq<GenesisAccount>, registry: Registry)
    ensures GenesisState(timestamp, accounts, registry).db.utxo == NewOuts(AllocationTxs(accounts))
  {
    var txs := AllocationTxs(accounts);
    forall ref ensures ref !in TxsIns(txs) {
      TxsInsMember(txs, ref);
      if ref in TxsIns(txs) {
        var tx :| tx in txs && ref in Ins(tx);
        AllocationsFit(accounts, tx);
      }
    }
    CoinsAfter(0, Coins(map[], map[]), txs);
    assert map[] - TxsIns(txs) + NewOuts(txs) == NewOuts(txs);
  }

  lemma {:induction false} MintedTotal(accounts: seq<GenesisAccount>)
    ensures BlockOut(AllocationTxs(accounts)) == BalanceTotal(accounts)
  {
    if accounts != [] {
      var txs := AllocationTxs(accounts);
      MintedTotal(accounts[..|accounts| - 1]);
      assert txs[..|txs| - 1] == AllocationTxs(accounts[..|accounts| - 1]);
      AllocationsFit(accounts, txs[|txs| - 1]);
    }
  }

  lemma SameRepeats(accounts: seq<GenesisAccount>)
    ensures Distinct(AllocationTxs(accounts)) <==> forall i, j :: 0 <= i < j < |accounts| ==> accounts[i] != accounts[j]
  {
    var txs := AllocationTxs(accounts);
    forall i, j | 0 <= i < j < |accounts| ensures txs[i] == txs[j] <==> accounts[i] == accounts[j] {
      assert txs[i].outputs[0] == TxOutput(accounts[i].balance, accounts[i].address);
      assert txs[j].outputs[0] == TxOutput(accounts[j].balance, accounts[j].address);
    }
  }

  /** Every account can spend its balance. */
  lemma AccountsFunded(timestamp: I64, accounts: seq<GenesisAccount>, i: nat)
    requires i < |accounts|
    ensures var ref := TxOutRef(TxHash(AllocationTx(accounts[i])), 0);
            var utxo := Replay([GenesisBlock(timestamp, accounts)]).utxo;
            ref in utxo && utxo[ref] == TxOutput(accounts[i].balance, accounts[i].address)
  {
    var txs, ref := AllocationTxs(accounts), TxOutRef(TxHash(AllocationTx(accounts[i])), 0);
    GenesisStored(timestamp, accounts, map[]);
    GenesisCoinsAre(timestamp, accounts, map[]);
    assert txs[i] in txs;
    TxsOutsMember(txs, ref);
    NewOutsAre(txs, ref);
  }

  /** So does every account of the file, whatever validators follow. */
  lemma EntriesFunded(timestamp: I64, accounts: seq<AccountEntry>, entries: seq<GenesisValidator>, i: nat)
    requires AllDecode(accounts) && i < |accounts|
    ensures var output := TxOutput(accounts[i].balance, accounts[i].address.value);
            var utxo := AfterGenesis(EMPTY_DB, timestamp, AccountsOf(accounts), entries).utxo;
            var ref := TxOutRef(OfTx(Transaction(Transfer, [], [output])), 0);
            ref in utxo && utxo[ref] == output
  {
    AccountsFunded(timestamp, AccountsOf(accounts), i);
    GenesisStored(timestamp, AccountsOf(accounts), map[]);
  }

  /** The hash of the genesis block is that of its timestamp: it covers the message, but not the accounts. */
  lemma GenesisHashBinds(t: I64, accounts: seq<GenesisAccount>, u: I64, others: seq<GenesisAccount>)
    ensures BlockHash(GenesisBlock(t, accounts)) == BlockHash(GenesisBlock(u, others)) <==> t == u
  {
    assert GenesisBlock(t, accounts).header.timestamp == t;
  }

  // ── Which validators are filed ─────────────────────────────────────────────

  /** The first `n` entries are those before the first that does not decode or has an address that is not its key's. */
  ghost predicate StopsAt(entries: seq<ValidatorEntry>, n: nat) {
    && n <= |entries| && (n < |entries| ==> !WellFormed(entries[n]))
    && forall i :: 0 <= i < n ==> WellFormed(entries[i])
  }

  lemma OneFiled(registry: Registry, entries: seq<ValidatorEntry>)
    requires KeyedByAddress(registry) && entries != [] && WellFormed(entries[0])
    ensures var e := entries[0];
            var v := Validator(e.address.value, e.pubkey.value, e.stake, 0);
            && KeyedByAddress(registry[v.address := v])
            && GenesisRegistry(registry, Decoded(entries))
               == GenesisRegistry(registry[v.address := v], Decoded(entries[1..]))
  {
    assert Decoded(entries)[1..] == Decoded(entries[1..]);
  }

  lemma {:induction false} OthersUntouched(registry: Registry, entries: seq<ValidatorEntry>, n: nat, a: Address)
    requires KeyedByAddress(registry) && StopsAt(entries, n)
    requires forall i :: 0 <= i < n ==> entries[i].address != Some(a)
    ensures var filed := GenesisRegistry(registry, Decoded(entries));
            (a in filed <==> a in registry) && (a in filed ==> filed[a] == registry[a])
    decreases n
  {
    if n > 0 {
      var e := entries[0];
      OneFiled(registry, entries);
      var v := Validator(e.address.value, e.pubkey.value, e.stake, 0);
      OthersUntouched(registry[v.address := v], entries[1..], n - 1, a);
    }
  }

  /**
   Every entry before the first bad one is filed, active from slot 0 with its key
   and its stake, unless a later one of them has the same address.
   */
  lemma {:induction false} LastEntryFiled(registry: Registry, entries: seq<ValidatorEntry>, n: nat, i: nat)
    requires KeyedByAddress(registry) && StopsAt(entries, n) && i < n
    requires forall j :: i < j < n ==> entries[j].address != entries[i].address
    ensures var filed, e := GenesisRegistry(registry, Decoded(entries)), entries[i];
            && e.address.value in filed
            && filed[e.address.value] == Validator(e.address.value, e.pubkey.value, e.stake, 0)
    decreases n
  {
    var e, rest := entries[0], entries[1..];
    OneFiled(registry, entries);
    var v := Validator(e.address.value, e.pubkey.value, e.stake, 0);
    if i > 0 {
      LastEntryFiled(registry[v.address := v], rest, n - 1, i - 1);
    } else {
      OthersUntouched(registry[v.address := v], rest, n - 1, v.address);
    }
  }

  // ── A crash during genesis ─────────────────────────────────────────────────

  function StateAfter(writes: seq<Db>, k: nat): Db
    requires k <= |writes|
  {
    if k == 0 then EMPTY_DB else writes[k - 1]
  }

  /** Each validator write leaves the registry of the entries up to it. */
  lemma {:induction false} RegistryWriteIs(db: Db, entries: seq<GenesisValidator>, i: nat)
    requires KeyedByAddress(db.registry) && i < |RegistryWrites(db, entries)|
    ensures i < |entries|
    ensures RegistryWrites(db, entries)[i] == db.(registry := GenesisRegistry(db.registry, entries[..i + 1]))
    decreases |entries|
  {
    var e, rest := entries[0], entries[1..];
    var next := db.(registry := db.registry[e.address := Validator(e.address, e.pubkey, e.stake, 0)]);
    if i > 0 {
      RegistryWriteIs(next, rest, i - 1);
    }
    assert entries[..i + 1][0] == e && entries[..i + 1][1..] == rest[..i];
  }

  /** The coins come with the third of the four block writes, and the sentinel goes with the fourth. */
  lemma FourWrites(db: Db, block: Block)
    ensures var w := ExtendWrites(db, block);
            && |w| == 4 && w[0] == InsertBlock(db, block) && w[1].sentinel.Some? && w[2].sentinel.Some?
            && w[3] == Extend(db, block) == ApplyCoins(InsertBlock(db, block), block).(sentinel := None)
            && forall k :: 0 <= k < 4 ==>
                 w[k].blocksH == db.blocksH[block.header.height := block] && w[k].registry == db.registry
  {
  }

  lemma GenesisHasCoins(timestamp: I64, accounts: seq<GenesisAccount>)
    ensures var block := GenesisBlock(timestamp, accounts);
            var db := InsertBlock(EMPTY_DB, block);
            ApplyCoins(db, block) == db <==> accounts == []
  {
    if accounts != [] {
      GenesisStored(timestamp, accounts, map[]);
      AccountsFunded(timestamp, accounts, 0);
    }
  }

  /** The validators filed with the first `k` writes; the block takes four. */
  function FiledBy(entries: seq<GenesisValidator>, k: nat): seq<GenesisValidator> {
    if 4 <= k <= |entries| + 4 then entries[..k - 4] else []
  }

  /** What stands after `k` writes, block and registry apart. */
  lemma WriteIs(genesis: Block, entries: seq<GenesisValidator>, k: nat)
    requires genesis.header.height == 0 && 0 < k <= |StoreWrites(EMPTY_DB, genesis, entries)|
    ensures var db := StateAfter(StoreWrites(EMPTY_DB, genesis, entries), k);
            && 0 in db.blocksH && KeyedByAddress(db.registry)
            && db.registry == GenesisRegistry(map[], FiledBy(entries, k))
            && db.(registry := map[])
               == (if k < 4 then ExtendWrites(EMPTY_DB, genesis)[k - 1] else Extend(EMPTY_DB, genesis))
  {
    var base := Extend(EMPTY_DB, genesis);
    FourWrites(EMPTY_DB, genesis);
    if k > 4 {
      RegistryWriteIs(base, entries, k - 5);
    } else {
      assert FiledBy(entries, k) == [];
    }
  }

  /**
   What a start after a crash makes of genesis, exactly: with a block 0 stored it
   adds nothing. So genesis is complete if nothing had been written; or if the
   block was applied (or has no transactions to apply) and the validators that
   were filed already make up the whole registry.
   */
  lemma RestartCompletes(timestamp: I64, accounts: seq<GenesisAccount>, entries: seq<GenesisValidator>, k: nat)
    requires k <= |GenesisWrites(EMPTY_DB, timestamp, accounts, entries)|
    ensures var crashed := StateAfter(GenesisWrites(EMPTY_DB, timestamp, accounts, entries), k);
            && KeyedByAddress(crashed.registry)
            && (AfterGenesis(crashed, timestamp, accounts, entries)
                == AfterGenesis(EMPTY_DB, timestamp, accounts, entries)
                <==> k == 0
                     || ((k >= 4 || (k == 1 && accounts == []))
                         && GenesisRegistry(map[], FiledBy(entries, k)) == GenesisRegistry(map[], entries)))
  {
    var genesis := GenesisBlock(timestamp, accounts);
    if k > 0 {
      FourWrites(EMPTY_DB, genesis);
      GenesisHasCoins(timestamp, accounts);
      WriteIs(genesis, entries, k);
      SameButRegistry(StateAfter(GenesisWrites(EMPTY_DB, timestamp, accounts, entries), k),
                      AfterGenesis(EMPTY_DB, timestamp, accounts, entries));
    }
  }

  lemma SameButRegistry(a: Db, b: Db)
    ensures a == b <==> a.(registry := map[]) == b.(registry := map[]) && a.registry == b.registry
  {
  }

  ghost predicate GoodEntries(entries: seq<GenesisValidator>) {
    && (forall i :: 0 <= i < |entries| ==> entries[i].address == AddressOf(entries[i].pubkey))
    && (forall i, j :: 0 <= i < j < |entries| ==> entries[i].address != entries[j].address)
  }

  lemma {:induction false} RegistryHolds(registry: Registry, entries: seq<GenesisValidator>, a: Address)
    requires KeyedByAddress(registry)
    requires forall e :: e in entries ==> e.address == AddressOf(e.pubkey)
    ensures a in GenesisRegistry(registry, entries) <==> a in registry || exists e :: e in entries && e.address == a
    decreases |entries|
  {
    if entries != [] {
      var e, rest := entries[0], entries[1..];
      assert entries == [e] + rest;
      RegistryHolds(registry[e.address := Validator(e.address, e.pubkey, e.stake, 0)], rest, a);
    }
  }

  lemma {:induction false} AllFiled(db: Db, entries: seq<GenesisValidator>)
    requires forall e :: e in entries ==> e.address == AddressOf(e.pubkey)
    ensures |RegistryWrites(db, entries)| == |entries|
    decreases |entries|
  {
    if entries != [] {
      var e := entries[0];
      AllFiled(db.(registry := db.registry[e.address := Validator(e.address, e.pubkey, e.stake, 0)]), entries[1..]);
    }
  }

  /** Of distinct, well-formed entries no proper prefix makes up the registry. */
  lemma PrefixIsShort(entries: seq<GenesisValidator>, n: nat)
    requires GoodEntries(entries) && n < |entries|
    ensures GenesisRegistry(map[], entries[..n]) != GenesisRegistry(map[], entries)
  {
    var a := entries[n].address;
    RegistryHolds(map[], entries, a);
    RegistryHolds(map[], entries[..n], a);
  }

  /** So with distinct, well-formed validators no crash in the middle is ever made good. */
  lemma NeverMadeGood(timestamp: I64, accounts: seq<GenesisAccount>, entries: seq<GenesisValidator>, k: nat)
    requires (accounts != [] || entries != []) && GoodEntries(entries)
    requires k <= |GenesisWrites(EMPTY_DB, timestamp, accounts, entries)|
    ensures var w := GenesisWrites(EMPTY_DB, timestamp, accounts, entries);
            && KeyedByAddress(StateAfter(w, k).registry)
            && var restarted := AfterGenesis(StateAfter(w, k), timestamp, accounts, entries);
               restarted == AfterGenesis(EMPTY_DB, timestamp, accounts, entries) <==> k == 0 || k == |w|
  {
    FourWrites(EMPTY_DB, GenesisBlock(timestamp, accounts));
    AllFiled(Extend(EMPTY_DB, GenesisBlock(timestamp, accounts)), entries);
    RestartCompletes(timestamp, accounts, entries, k);
    var filed := FiledBy(entries, k);
    if |filed| < |entries| {
      assert filed == entries[..|filed|];
      PrefixIsShort(entries, |filed|);
    } else {
      assert filed == entries;
    }
  }

  /**
   A start that fails at a validator leaves the genesis block and the validators
   before that one; the next start then succeeds and leaves it so. One that fails
   at an account leaves nothing and fails again.
   */
  method StartTwice(
    node: Node, timestamp: I64, accounts: seq<AccountEntry>, entries: seq<ValidatorEntry>)
    returns (first: bool, second: bool)
    requires KeyedByAddress(node.store.validators) && 0 !in node.store.blocksH
    modifies node.store
    ensures first <==> AllDecode(accounts) && forall e :: e in entries ==> WellFormed(e)
    ensures second <==> AllDecode(accounts)
    ensures node.store.Model()
         == if AllDecode(accounts)
            then AfterGenesis(old(node.store.Model()), timestamp, AccountsOf(accounts), Decoded(entries))
            else old(node.store.Model())
  {
    first := node.ApplyGenesis(timestamp, accounts, entries);
    second := node.ApplyGenesis(timestamp, accounts, entries);
  }
}
