/**
 A run in full, so that the assumptions of the theorems about runs are seen to be
 met together: a network of one validator applies genesis, pools a payment,
 proposes a block with it, and then gives that block up for a rival.
 */
module Scenario {
  import opened Types
  import opened Ledger
  import opened Validators
  import opened Validation
  import opened Storage
  import opened Chain
  import Durability
  import opened Conservation
  import opened Mempools
  import opened Nodes
  import Proposals
  import opened Runs
  import opened Genesis
  import opened ForkChoice

  /** One validator, this node's own, which also owns every genesis account. */
  ghost predicate Alone(config: Config, v: Validator, accounts: seq<GenesisAccount>) {
    && KeyMatches(config) && v.pubkey == VerifyingKey(config.mySigningKey) && v.address == config.myAddress
    && v.stake > 0 && v.activeSince == 0
    && forall i :: 0 <= i < |accounts| ==> accounts[i].address == v.address && accounts[i].balance > 0
  }

  /** Slot 1 or later, with more than a second to go. */
  predicate Opportune(p: Params, now: I64) {
    && ClockOk(p, now) && SlotOf(p, now) > 0
    && MIN_PROPOSE_WINDOW_SECS < (SlotOf(p, now) + 1) * p.slotDuration - now
    && (SlotOf(p, now) + 1) * p.slotDuration <= I64_MAX
  }

  function RegistryOf(v: Validator): Registry {
    map[v.address := v]
  }

  /** An account sends its balance to itself. */
  function Pay(config: Config, account: GenesisAccount): Transaction {
    Payment(config.mySigningKey, TxOutRef(TxHash(AllocationTx(account)), 0), account.balance, account.address)
  }

  /** A block that the validator makes on the genesis block. */
  function BlockOf(config: Config, accounts: seq<GenesisAccount>, txs: seq<Transaction>, now: I64): Block
    requires ClockOk(config.params, now)
  {
    BuildBlock(config, Tip(0, BlockHash(GenesisBlock(0, accounts))), SlotOf(config.params, now), now, txs)
  }

  /** A block on the genesis block with one such payment. */
  function BlockWith(config: Config, accounts: seq<GenesisAccount>, i: nat, now: I64): Block
    requires i < |accounts| && ClockOk(config.params, now)
  {
    BlockOf(config, accounts, [Pay(config, accounts[i])], now)
  }

  lemma PayValid(config: Config, v: Validator, accounts: seq<GenesisAccount>, i: nat)
    requires Alone(config, v, accounts) && i < |accounts|
    ensures var tx := Pay(config, accounts[i]);
            && ValidTx(tx, Replay([GenesisBlock(0, accounts)]).utxo) && NoOverflow(tx)
            && Ins(tx) == {TxOutRef(TxHash(AllocationTx(accounts[i])), 0)}
  {
    var a, tx := accounts[i], Pay(config, accounts[i]);
    var ref, utxo := TxOutRef(TxHash(AllocationTx(a)), 0), Replay([GenesisBlock(0, accounts)]).utxo;
    AccountsFunded(0, accounts, i);
    PaymentValid(config.mySigningKey, ref, a.balance, a.address);
    ValidTxFrame(tx, map[ref := TxOutput(a.balance, a.address)], utxo);
  }

  lemma OnlyValidator(v: Validator, slot: U64)
    requires v.address == AddressOf(v.pubkey) && Active(v, slot)
    ensures ActiveList(RegistryOf(v), slot) == [v]
  {
    ActiveListIs(RegistryOf(v), slot);
    ActiveListUnique(ActiveList(RegistryOf(v), slot), [v]);
  }

  lemma Proposes(config: Config, v: Validator, accounts: seq<GenesisAccount>, now: I64)
    requires Alone(config, v, accounts) && Opportune(config.params, now)
    ensures TickSlot(config, DbOf([GenesisBlock(0, accounts)], RegistryOf(v)), now) == Some(SlotOf(config.params, now))
  {
    OnlyValidator(v, SlotOf(config.params, now));
    Proposals.SoleValidatorProposes(config, DbOf([GenesisBlock(0, accounts)], RegistryOf(v)), now, v);
  }

  lemma OnlyPayment(tx: Transaction, utxo: Utxo)
    requires ValidTx(tx, utxo) && NoOverflow(tx)
    ensures AllValid([tx], utxo) && NoOverflows([tx])
  {
  }

  /** All that can be wrong with such a block is its transactions. */
  lemma OnlyTxsMatter(
    config: Config, v: Validator, accounts: seq<GenesisAccount>, txs: seq<Transaction>, now: I64, utxo: Utxo)
    requires Alone(config, v, accounts) && Opportune(config.params, now)
    ensures var block := BlockOf(config, accounts, txs, now);
            BlockVerdict(config.params, block, GenesisBlock(0, accounts), utxo, RegistryOf(v))
            == if AllValid(txs, utxo) then Ok(()) else Err(InvalidTransaction)
  {
    var genesis := GenesisBlock(0, accounts);
    Proposes(config, v, accounts, now);
    GenesisIsGood(config.params, 0, accounts, RegistryOf(v));
    assert TipOf([genesis]) == Some(Tip(0, BlockHash(genesis)));
    Proposals.ProposedHeaderPasses(config, RegistryOf(v), [genesis], now, txs, BlockOf(config, accounts, txs, now));
  }

  /** And with valid transactions it is accepted. */
  lemma AcceptedOnGenesis(config: Config, v: Validator, accounts: seq<GenesisAccount>, txs: seq<Transaction>, now: I64)
    requires Alone(config, v, accounts) && Opportune(config.params, now)
    requires AllValid(txs, Replay([GenesisBlock(0, accounts)]).utxo) && NoOverflows(txs)
    ensures var genesis, block := GenesisBlock(0, accounts), BlockOf(config, accounts, txs, now);
            && GoodChain(config.params, RegistryOf(v), [genesis]) && Linked([genesis])
            && AcceptedOn(config.params, RegistryOf(v), [genesis], block)
            && Rival(config.params, RegistryOf(v), [genesis], block)
  {
    var genesis := GenesisBlock(0, accounts);
    OnlyTxsMatter(config, v, accounts, txs, now, Replay([genesis]).utxo);
    VerdictAccepts(config.params, RegistryOf(v), [genesis], BlockOf(config, accounts, txs, now), genesis);
    GenesisIsGood(config.params, 0, accounts, RegistryOf(v));
    AcceptedIsRival(config.params, RegistryOf(v), [genesis], BlockOf(config, accounts, txs, now));
  }

  lemma BlockIsRival(config: Config, v: Validator, accounts: seq<GenesisAccount>, i: nat, now: I64)
    requires Alone(config, v, accounts) && Opportune(config.params, now) && i < |accounts|
    ensures var genesis, block := GenesisBlock(0, accounts), BlockWith(config, accounts, i, now);
            && GoodChain(config.params, RegistryOf(v), [genesis]) && Linked([genesis])
            && AcceptedOn(config.params, RegistryOf(v), [genesis], block)
            && Rival(config.params, RegistryOf(v), [genesis], block)
  {
    var genesis, tx := GenesisBlock(0, accounts), Pay(config, accounts[i]);
    PayValid(config, v, accounts, i);
    OnlyPayment(tx, Replay([genesis]).utxo);
    AcceptedOnGenesis(config, v, accounts, [tx], now);
  }

  // ── The steps ──────────────────────────────────────────────────────────────

  function StateWith(chain: seq<Block>, v: Validator, pool: Pool): NodeState {
    NodeState(DbOf(chain, RegistryOf(v)), pool)
  }

  lemma OneRef(tx: Transaction)
    ensures TxsIns([tx]) == Ins(tx) && TxsOuts([tx]) == Outs(tx).Keys
  {
    assert [tx][..0] == [];
  }

  /** The payments share no input, and the second spends nothing of the first. */
  lemma PaymentsApart(config: Config, v: Validator, accounts: seq<GenesisAccount>)
    requires Alone(config, v, accounts) && |accounts| == 2 && accounts[0] != accounts[1]
    ensures var first, second := Pay(config, accounts[0]), Pay(config, accounts[1]);
            TxsIns([second]) !! TxsIns([first]) && TxsIns([second]) !! TxsOuts([first])
  {
    var first, second := Pay(config, accounts[0]), Pay(config, accounts[1]);
    PayValid(config, v, accounts, 0);
    PayValid(config, v, accounts, 1);
    OneRef(first);
    OneRef(second);
    assert AllocationTx(accounts[0]).outputs[0] != AllocationTx(accounts[1]).outputs[0];
    assert first.inputs != [] && AllocationTx(accounts[1]).inputs == [];
  }

  lemma Pooled(config: Config, db: Db, tx: Transaction)
    requires ValidTx(tx, db.utxo) && config.mempoolMaxSize > 0
    ensures Step(config, NodeState(db, map[]), TxArrives(tx), NodeState(db, map[TxHash(tx) := tx]))
    ensures Careful(config, NodeState(db, map[]), TxArrives(tx))
  {
    var after: Pool := map[TxHash(tx) := tx];
    assert after == map[][TxHash(tx) := tx];
    var value := OutTotal64(tx.outputs);
    assert AddStep(map[], config.mempoolMaxSize, tx, db.utxo, after, Ok(AddedToPool(value, 1, None, true)));
  }

  lemma OnlyDrained(tx: Transaction)
    ensures var pool: Pool := map[TxHash(tx) := tx];
            Drained(pool, [tx]) && RemoveAll(pool, TxHashes([tx])) == map[]
  {
    assert TxHashes([tx])[0] == TxHash(tx);
  }

  lemma SlotTaken(config: Config, db: Db, tx: Transaction, now: I64, slot: U64, tip: Tip, block: Block, after: Db)
    requires ClockOk(config.params, now) && TickSlot(config, db, now) == Some(slot)
    requires db.tip == Some(tip) && block == BuildBlock(config, tip, slot, now, [tx])
    requires after == Durability.Extend(db, block)
    ensures Step(config, NodeState(db, map[TxHash(tx) := tx]), SlotComes(now, [tx]), NodeState(after, map[]))
  {
    OnlyDrained(tx);
  }

  lemma SlotCareful(config: Config, db: Db, pool: Pool, tx: Transaction, now: I64)
    requires ValidTx(tx, db.utxo) && NoOverflow(tx)
    requires 0 in db.blocksH ==> db.blocksH[0].header.timestamp <= now
    ensures Careful(config, NodeState(db, pool), SlotComes(now, [tx]))
  {
    OnlyPayment(tx, db.utxo);
  }

  lemma OnGenesis(registry: Registry, genesis: Block, first: Block)
    requires first.header.height == 1
    ensures var db := DbOf([genesis], registry);
            && db.tip == Some(Tip(0, BlockHash(genesis))) && 0 in db.blocksH && db.blocksH[0] == genesis
            && db.utxo == Replay([genesis]).utxo && Durability.Extend(db, first) == DbOf([genesis, first], registry)
  {
    Durability.ExtendStored([genesis], first, registry);
    assert [genesis] + [first] == [genesis, first];
  }

  lemma FirstProposed(config: Config, v: Validator, accounts: seq<GenesisAccount>, now: I64)
    requires Alone(config, v, accounts) && |accounts| > 0 && Opportune(config.params, now)
    ensures var genesis, tx := GenesisBlock(0, accounts), Pay(config, accounts[0]);
            var first := BlockWith(config, accounts, 0, now);
            var before, e := StateWith([genesis], v, map[TxHash(tx) := tx]), SlotComes(now, [tx]);
            Step(config, before, e, StateWith([genesis, first], v, map[])) && Careful(config, before, e)
  {
    var genesis, tx, first := GenesisBlock(0, accounts), Pay(config, accounts[0]), BlockWith(config, accounts, 0, now);
    var registry, slot := RegistryOf(v), SlotOf(config.params, now);
    Proposes(config, v, accounts, now);
    PayValid(config, v, accounts, 0);
    OnGenesis(registry, genesis, first);
    var db, after := DbOf([genesis], registry), DbOf([genesis, first], registry);
    SlotTaken(config, db, tx, now, slot, Tip(0, BlockHash(genesis)), first, after);
    SlotCareful(config, db, map[TxHash(tx) := tx], tx, now);
  }

  lemma BlockTaken(config: Config, db: Db, tip: Block, block: Block)
    requires TipBlock(db) == Some(tip) && NoOverflows(block.txs) && TxsIns(block.txs) !! TxsOuts(tip.txs)
    ensures var before, e := NodeState(db, map[]), BlockArrives(block);
            && Careful(config, before, e)
            && Step(config, before, e, NodeState(DbAfter(db, Judge(config.params, db, block), block), map[]))
  {
    assert RemoveAll(map[], TxHashes(block.txs)) == map[];
  }

  lemma Displaced(config: Config, registry: Registry, genesis: Block, first: Block, rival: Block)
    requires Linked([genesis])
    requires Rival(config.params, registry, [genesis], first) && Rival(config.params, registry, [genesis], rival)
    requires Beats(config.params, rival, first) && TxsIns(rival.txs) !! TxsOuts(first.txs) && NoOverflows(rival.txs)
    ensures var before, e := NodeState(DbOf([genesis, first], registry), map[]), BlockArrives(rival);
            && Step(config, before, e, NodeState(DbOf([genesis, rival], registry), map[])) && Careful(config, before, e)
  {
    NextArrives(config.params, registry, [genesis], first, rival);
    TipIs(config.params, registry, [genesis], first);
    assert [genesis] + [first] == [genesis, first] && [genesis] + [rival] == [genesis, rival];
    BlockTaken(config, DbOf([genesis, first], registry), first, rival);
  }

  // ── The run ────────────────────────────────────────────────────────────────

  lemma DistinctPayment(tx: Transaction)
    requires |tx.inputs| == 1
    ensures InputsDistinct([tx])
  {
    assert [tx][..0] == [] && tx.inputs[..0] == [];
    assert InputsDistinct([]) && DistinctInputs(tx.inputs);
    OneRef(tx);
    assert TxsIns([]) == {};
    assert [tx][0] == tx;
  }

  lemma LastDisplaced(config: Config, v: Validator, accounts: seq<GenesisAccount>, now: I64, later: I64)
    requires Alone(config, v, accounts) && |accounts| == 2 && accounts[0] != accounts[1]
    requires Opportune(config.params, now) && Opportune(config.params, later)
    requires var first, rival := BlockWith(config, accounts, 0, now), BlockWith(config, accounts, 1, later);
             config.params.digestValue(BlockHash(rival)) < config.params.digestValue(BlockHash(first))
    ensures var genesis := GenesisBlock(0, accounts);
            var first, rival := BlockWith(config, accounts, 0, now), BlockWith(config, accounts, 1, later);
            var before, e := StateWith([genesis, first], v, map[]), BlockArrives(rival);
            Step(config, before, e, StateWith([genesis, rival], v, map[])) && Careful(config, before, e)
  {
    var first, rival := BlockWith(config, accounts, 0, now), BlockWith(config, accounts, 1, later);
    BlockIsRival(config, v, accounts, 0, now);
    BlockIsRival(config, v, accounts, 1, later);
    GenesisIsGood(config.params, 0, accounts, RegistryOf(v));
    PaymentsApart(config, v, accounts);
    Displaced(config, RegistryOf(v), GenesisBlock(0, accounts), first, rival);
  }

  function StateAt(config: Config, v: Validator, accounts: seq<GenesisAccount>, now: I64, later: I64, k: nat): NodeState
    requires |accounts| == 2 && ClockOk(config.params, now) && ClockOk(config.params, later)
  {
    var genesis, tx := GenesisBlock(0, accounts), Pay(config, accounts[0]);
    if k == 0 then StateWith([genesis], v, map[])
    else if k == 1 then StateWith([genesis], v, map[TxHash(tx) := tx])
    else if k == 2 then StateWith([genesis, BlockWith(config, accounts, 0, now)], v, map[])
    else StateWith([genesis, BlockWith(config, accounts, 1, later)], v, map[])
  }

  function EventAt(config: Config, accounts: seq<GenesisAccount>, now: I64, later: I64, k: nat): Event
    requires |accounts| == 2 && ClockOk(config.params, later)
  {
    var tx := Pay(config, accounts[0]);
    if k == 0 then TxArrives(tx)
    else if k == 1 then SlotComes(now, [tx])
    else BlockArrives(BlockWith(config, accounts, 1, later))
  }

  lemma StepAt(config: Config, v: Validator, accounts: seq<GenesisAccount>, now: I64, later: I64, k: nat)
    requires Alone(config, v, accounts) && |accounts| == 2 && accounts[0] != accounts[1] && config.mempoolMaxSize > 0
    requires Opportune(config.params, now) && Opportune(config.params, later) && k < 3
    requires var first, rival := BlockWith(config, accounts, 0, now), BlockWith(config, accounts, 1, later);
             config.params.digestValue(BlockHash(rival)) < config.params.digestValue(BlockHash(first))
    ensures var s, e := StateAt(config, v, accounts, now, later, k), EventAt(config, accounts, now, later, k);
            Step(config, s, e, StateAt(config, v, accounts, now, later, k + 1)) && Careful(config, s, e)
    ensures InputsDistinct(Brought(EventAt(config, accounts, now, later, k)))
  {
    DistinctPayment(Pay(config, accounts[if k < 2 then 0 else 1]));
    if k == 0 {
      PayValid(config, v, accounts, 0);
      Pooled(config, DbOf([GenesisBlock(0, accounts)], RegistryOf(v)), Pay(config, accounts[0]));
    } else if k == 1 {
      FirstProposed(config, v, accounts, now);
    } else {
      LastDisplaced(config, v, accounts, now, later);
    }
  }

  lemma StepsMakeRun(
    config: Config, v: Validator, accounts: seq<GenesisAccount>, now: I64, later: I64,
    states: seq<NodeState>, events: seq<Event>)
    requires Alone(config, v, accounts) && |accounts| == 2 && accounts[0] != accounts[1] && config.mempoolMaxSize > 0
    requires Opportune(config.params, now) && Opportune(config.params, later)
    requires var first, rival := BlockWith(config, accounts, 0, now), BlockWith(config, accounts, 1, later);
             config.params.digestValue(BlockHash(rival)) < config.params.digestValue(BlockHash(first))
    requires |states| == 4 && forall k :: 0 <= k < 4 ==> states[k] == StateAt(config, v, accounts, now, later, k)
    requires |events| == 3 && forall k :: 0 <= k < 3 ==> events[k] == EventAt(config, accounts, now, later, k)
    ensures CarefulRun(config, states, events) && StoresDistinct(config, states, events)
  {
    forall k | 0 <= k < 3
      ensures Step(config, states[k], events[k], states[k + 1]) && Careful(config, states[k], events[k])
      ensures InputsDistinct(Brought(events[k]))
    {
      StepAt(config, v, accounts, now, later, k);
    }
  }

  /** A proposal and a reorg, from genesis, with every assumption of the theorems about runs. */
  lemma ReorgRun(config: Config, v: Validator, accounts: seq<GenesisAccount>, now: I64, later: I64)
    returns (states: seq<NodeState>, events: seq<Event>)
    requires Alone(config, v, accounts) && |accounts| == 2 && accounts[0] != accounts[1] && config.mempoolMaxSize > 0
    requires Opportune(config.params, now) && Opportune(config.params, later)
    requires var first, rival := BlockWith(config, accounts, 0, now), BlockWith(config, accounts, 1, later);
             config.params.digestValue(BlockHash(rival)) < config.params.digestValue(BlockHash(first))
    ensures KeyedByAddress(RegistryOf(v)) && KeyMatches(config)
    ensures CarefulRun(config, states, events) && |events| == 3
    ensures states[0] == GenesisState(0, accounts, RegistryOf(v)) && Sound(config.params, RegistryOf(v), states[0])
    ensures StoresDistinct(config, states, events) && DistinctInputsFrom(StoredChain(states[0].db), 1)
    ensures StoredChain(states[2].db) == [GenesisBlock(0, accounts), BlockWith(config, accounts, 0, now)]
    ensures StoredChain(states[3].db) == [GenesisBlock(0, accounts), BlockWith(config, accounts, 1, later)]
  {
    states := seq(4, k requires 0 <= k < 4 => StateAt(config, v, accounts, now, later, k));
    events := seq(3, k requires 0 <= k < 3 => EventAt(config, accounts, now, later, k));
    StepsMakeRun(config, v, accounts, now, later, states, events);
    var genesis := GenesisBlock(0, accounts);
    GenesisStored(0, accounts, RegistryOf(v));
    GenesisIsSound(config.params, 0, accounts, RegistryOf(v));
    StoredChainOf([genesis, BlockWith(config, accounts, 0, now)], RegistryOf(v));
    StoredChainOf([genesis, BlockWith(config, accounts, 1, later)], RegistryOf(v));
  }

  /** And such a network exists. */
  lemma ReorgRunExists() returns (config: Config, registry: Registry, states: seq<NodeState>, events: seq<Event>)
    ensures KeyedByAddress(registry) && KeyMatches(config)
    ensures CarefulRun(config, states, events) && Sound(config.params, registry, states[0])
    ensures StoresDistinct(config, states, events) && DistinctInputsFrom(StoredChain(states[0].db), 1)
    ensures |events| == 3 && |StoredChain(states[2].db)| == |StoredChain(states[3].db)| == 2
    ensures StoredChain(states[2].db) != StoredChain(states[3].db)
  {
    var key := SecretKey(1);
    var owner := AddressOf(VerifyingKey(key));
    var accounts := [GenesisAccount(owner, 10), GenesisAccount(owner, 20)];
    var v := Validator(owner, VerifyingKey(key), 1, 0);
    var draft := Config(Params(10, (d: Digest) => 1, (d: Digest) => 0), owner, key, 1);
    TenSecondSlots(draft);
    var low := BlockHash(BlockWith(draft, accounts, 1, 16));
    config := draft.(params := Params(10, (d: Digest) => if d == low then 0 else 1, (d: Digest) => 0));
    TenSecondSlots(config);
    registry := RegistryOf(v);
    states, events := ReorgRun(config, v, accounts, 15, 16);
  }

  lemma TenSecondSlots(config: Config)
    requires config.params.slotDuration == 10
    ensures Opportune(config.params, 15) && Opportune(config.params, 16) && Opportune(config.params, 25)
    ensures SlotOf(config.params, 15) == SlotOf(config.params, 16) == 1 && SlotOf(config.params, 25) == 2
  {
  }
}
