/**
 What happens when a condition of the theorems about runs is not met: an accepted
 block that makes an output twice, a reorg that mints, and a proposal that the
 node's own validator rejects. All start from genesis.
 */
module Counterexamples {
  import opened Types
  import opened Ledger
  import opened Validators
  import opened Validation
  import opened Storage
  import opened Chain
  import Durability
  import opened Conservation
  import opened Mempools
  import opened Nodes
  import Proposals
  import opened Runs
  import opened Genesis
  import opened ForkChoice
  import opened Scenario

  /** The first account's allocation. */
  function FirstCoin(accounts: seq<GenesisAccount>): TxOutRef
    requires accounts != []
  {
    TxOutRef(TxHash(AllocationTx(accounts[0])), 0)
  }

  lemma FirstCoinThere(config: Config, v: Validator, accounts: seq<GenesisAccount>)
    requires Alone(config, v, accounts) && accounts != []
    ensures var ref, utxo := FirstCoin(accounts), Replay([GenesisBlock(0, accounts)]).utxo;
            && ref in utxo && utxo[ref] == TxOutput(accounts[0].balance, v.address) && utxo[ref].amount > 0
            && v.address == AddressOf(VerifyingKey(config.mySigningKey))
  {
    AccountsFunded(0, accounts, 0);
  }

  // ── One output spent twice ─────────────────────────────────────────────────

  /** A block accepted on the genesis block that adds the first account's balance to the total. */
  lemma AcceptedDoubleSpend(config: Config, v: Validator, accounts: seq<GenesisAccount>, now: I64, payee: Address)
    returns (block: Block)
    requires Alone(config, v, accounts) && Opportune(config.params, now) && accounts != [] && payee != v.address
    ensures var genesis := GenesisBlock(0, accounts);
            && GoodChain(config.params, RegistryOf(v), [genesis])
            && AcceptedOn(config.params, RegistryOf(v), [genesis], block)
            && Value(Replay([genesis, block]).utxo) == Value(Replay([genesis]).utxo) + accounts[0].balance
  {
    var genesis, ref := GenesisBlock(0, accounts), FirstCoin(accounts);
    var txs := PaidTwice(config.mySigningKey, ref, accounts[0].balance, v.address, payee);
    FirstCoinThere(config, v, accounts);
    GenesisIsGood(config.params, 0, accounts, RegistryOf(v));
    PaidTwicePass(config.mySigningKey, Replay([genesis]).utxo, ref, v.address, payee, txs);
    AcceptedOnGenesis(config, v, accounts, txs, now);
    block := BlockOf(config, accounts, txs, now);
    AcceptedIsFresh(config.params, RegistryOf(v), [genesis], block);
    DoubleSpendPasses(config.mySigningKey, 1, Replay([genesis]), ref, v.address, payee, txs);
    ReplayOnGenesis(genesis, block);
  }

  lemma ReplayOnGenesis(genesis: Block, block: Block)
    ensures Replay([genesis, block]) == ApplyTxs(block.header.height, Replay([genesis]), block.txs)
  {
    assert [genesis, block] == [genesis] + [block];
    Durability.BlocksExtend([genesis], block);
  }

  // ── Outputs that wrap around ───────────────────────────────────────────────

  /** A block with one transaction that has no input passes on the genesis block and adds 2^64 to the total. */
  lemma AcceptedOverflow(config: Config, v: Validator, accounts: seq<GenesisAccount>, now: I64, payee: Address)
    requires Alone(config, v, accounts) && Opportune(config.params, now)
    ensures var genesis, block := GenesisBlock(0, accounts), BlockOf(config, accounts, [Overflowing(payee)], now);
            && BlockVerdict(config.params, block, genesis, Replay([genesis]).utxo, RegistryOf(v)) == Ok(())
            && Value(Replay([genesis, block]).utxo) == Value(Replay([genesis]).utxo) + U64_MAX + 1
  {
    var genesis, tx := GenesisBlock(0, accounts), Overflowing(payee);
    WrappedOutputsPass(Replay([genesis]).utxo, payee);
    OnlyTxsMatter(config, v, accounts, [tx], now, Replay([genesis]).utxo);
    NotAllocated(accounts, tx);
    OneRef(tx);
    ValueAfter(1, Replay([genesis]), [tx]);
    OneTxMakes(tx, Replay([genesis]).utxo);
    ReplayOnGenesis(genesis, BlockOf(config, accounts, [tx], now));
  }

  lemma OneTxMakes(tx: Transaction, utxo: Utxo)
    requires tx.inputs == []
    ensures Value(NewOuts([tx])) == OutTotal(tx.outputs) && Value(Part(utxo, TxsIns([tx]))) == 0
  {
    OneRef(tx);
    assert [tx][..0] == [] && [tx][0] == tx && BlockOut([]) == 0;
    NewOutsWorth([tx]);
    assert Part(utxo, TxsIns([tx])) == map[];
  }

  /** Allocations have one output each. */
  lemma NotAllocated(accounts: seq<GenesisAccount>, tx: Transaction)
    requires |tx.outputs| == 2
    ensures FreshOuts(Replay([GenesisBlock(0, accounts)]).utxo, [tx])
  {
    GenesisStored(0, accounts, map[]);
    GenesisCoinsAre(0, accounts, map[]);
    forall ref | ref in TxsOuts([tx]) ensures ref !in NewOuts(AllocationTxs(accounts)) {
      TxsOutsMember([tx], ref);
      NewOutsAre(AllocationTxs(accounts), ref);
      TxsOutsMember(AllocationTxs(accounts), ref);
    }
  }

  // ── A rival that spends what the tip made ──────────────────────────────────

  /** The output that the tip's payment leaves. */
  function TipCoin(config: Config, accounts: seq<GenesisAccount>): TxOutRef
    requires accounts != []
  {
    TxOutRef(TxHash(Pay(config, accounts[0])), 0)
  }

  function SpendTipCoin(config: Config, accounts: seq<GenesisAccount>): Transaction
    requires accounts != []
  {
    Payment(config.mySigningKey, TipCoin(config, accounts), accounts[0].balance, accounts[0].address)
  }

  lemma TipCoinThere(config: Config, v: Validator, accounts: seq<GenesisAccount>, now: I64)
    requires Alone(config, v, accounts) && Opportune(config.params, now) && accounts != []
    ensures var chain := [GenesisBlock(0, accounts), BlockWith(config, accounts, 0, now)];
            var ref, utxo := TipCoin(config, accounts), Replay(chain).utxo;
            && ref in utxo && utxo[ref] == TxOutput(accounts[0].balance, v.address) && utxo[ref].amount > 0
            && ref in TxsOuts([Pay(config, accounts[0])])
  {
    var genesis, tx, ref := GenesisBlock(0, accounts), Pay(config, accounts[0]), TipCoin(config, accounts);
    PayValid(config, v, accounts, 0);
    BlockIsRival(config, v, accounts, 0, now);
    GenesisIsGood(config.params, 0, accounts, RegistryOf(v));
    AcceptedIsFresh(config.params, RegistryOf(v), [genesis], BlockWith(config, accounts, 0, now));
    ReplayOnGenesis(genesis, BlockWith(config, accounts, 0, now));
    AppliedRef(1, Replay([genesis]), [tx], ref);
    TxsOutsMember([tx], ref);
  }

  /** The output it spends is there as long as the tip is. */
  lemma SpenderPasses(config: Config, v: Validator, accounts: seq<GenesisAccount>, now: I64, later: I64, above: Utxo)
    requires Alone(config, v, accounts) && accounts != []
    requires Opportune(config.params, now) && Opportune(config.params, later)
    requires above == Replay([GenesisBlock(0, accounts), BlockWith(config, accounts, 0, now)]).utxo
    ensures var tx := SpendTipCoin(config, accounts);
            && ValidTx(tx, above) && NoOverflow(tx) && Ins(tx) == {TipCoin(config, accounts)}
            && OutTotal(tx.outputs) == accounts[0].balance
            && var block := BlockOf(config, accounts, [tx], later);
               BlockVerdict(config.params, block, GenesisBlock(0, accounts), above, RegistryOf(v)) == Ok(())
  {
    TipCoinThere(config, v, accounts, now);
    PaymentPasses(config.mySigningKey, above, TipCoin(config, accounts), accounts[0].address);
    OnlyPayment(SpendTipCoin(config, accounts), above);
    OnlyTxsMatter(config, v, accounts, [SpendTipCoin(config, accounts)], later, above);
  }

  lemma SpenderReorgs(config: Config, v: Validator, accounts: seq<GenesisAccount>, now: I64, later: I64, rival: Block)
    requires Alone(config, v, accounts) && accounts != []
    requires Opportune(config.params, now) && Opportune(config.params, later)
    requires rival == BlockOf(config, accounts, [SpendTipCoin(config, accounts)], later)
    requires config.params.digestValue(BlockHash(rival))
           < config.params.digestValue(BlockHash(BlockWith(config, accounts, 0, now)))
    ensures var chain := [GenesisBlock(0, accounts), BlockWith(config, accounts, 0, now)];
            Judge(config.params, DbOf(chain, RegistryOf(v)), rival) == Reorged
  {
    var genesis, first := GenesisBlock(0, accounts), BlockWith(config, accounts, 0, now);
    SpenderPasses(config, v, accounts, now, later, Replay([genesis, first]).utxo);
    BlockIsRival(config, v, accounts, 0, now);
    GenesisIsGood(config.params, 0, accounts, RegistryOf(v));
    BesideReorgs(config.params, RegistryOf(v), genesis, first, rival);
  }

  lemma BesideReorgs(p: Params, registry: Registry, genesis: Block, first: Block, rival: Block)
    requires Linked([genesis]) && Rival(p, registry, [genesis], first)
    requires BlockVerdict(p, rival, genesis, Replay([genesis, first]).utxo, registry) == Ok(())
    requires p.digestValue(BlockHash(rival)) < p.digestValue(BlockHash(first))
    ensures Judge(p, DbOf([genesis, first], registry), rival) == Reorged
  {
    VerdictLinks(p, rival, genesis, Replay([genesis, first]).utxo, registry);
    RivalFacts(p, registry, [genesis], first);
    assert [genesis] + [first] == [genesis, first];
    JudgeBeside(p, [genesis], first, DbOf([genesis, first], registry), rival);
  }

  lemma TipIsGood(config: Config, v: Validator, accounts: seq<GenesisAccount>, now: I64)
    requires Alone(config, v, accounts) && accounts != [] && Opportune(config.params, now)
    ensures GoodChain(config.params, RegistryOf(v), [GenesisBlock(0, accounts), BlockWith(config, accounts, 0, now)])
  {
    var genesis, first := GenesisBlock(0, accounts), BlockWith(config, accounts, 0, now);
    GenesisIsGood(config.params, 0, accounts, RegistryOf(v));
    BlockIsRival(config, v, accounts, 0, now);
    Durability.GoodExtended(config.params, RegistryOf(v), [genesis], first);
    assert [genesis] + [first] == [genesis, first];
  }

  lemma OneTxWorth(tx: Transaction, ref: TxOutRef, utxo: Utxo, made: set<TxOutRef>)
    requires |tx.inputs| == 1 && Ins(tx) == {ref} && ref in utxo && ref in made
    ensures BlockIn([tx], utxo) == utxo[ref].amount && BlockOut([tx]) == OutTotal(tx.outputs)
    ensures Value(Part(utxo, TxsIns([tx]) * made)) == utxo[ref].amount
  {
    assert tx.inputs[0] in tx.inputs && tx.inputs[0].outRef == ref;
    assert tx.inputs[..0] == [] && [tx][..0] == [];
    assert InTotal(tx.inputs, utxo) == utxo[ref].amount;
    assert BlockIn([], utxo) == 0 && BlockOut([]) == 0 && [tx][0] == tx;
    OneRef(tx);
    assert TxsIns([tx]) * made == {ref};
    PartOne(utxo, ref);
  }

  /**
   After the reorg the total is up by the first account's balance: the rival
   spends nothing that the parent has, and its output stands.
   */
  lemma MintingReorg(config: Config, v: Validator, accounts: seq<GenesisAccount>, now: I64, later: I64)
    returns (rival: Block)
    requires Alone(config, v, accounts) && accounts != []
    requires Opportune(config.params, now) && Opportune(config.params, later)
    requires config.params.digestValue(BlockHash(BlockOf(config, accounts, [SpendTipCoin(config, accounts)], later)))
           < config.params.digestValue(BlockHash(BlockWith(config, accounts, 0, now)))
    ensures var genesis, first := GenesisBlock(0, accounts), BlockWith(config, accounts, 0, now);
            var db := DbOf([genesis, first], RegistryOf(v));
            && rival == BlockOf(config, accounts, [SpendTipCoin(config, accounts)], later)
            && Judge(config.params, db, rival) == Reorged && NoOverflows(rival.txs) && InputsDistinct(rival.txs)
            && DbAfter(db, Reorged, rival) == DbOf([genesis, rival], RegistryOf(v))
            && Value(Replay([genesis, rival]).utxo) == Value(Replay([genesis]).utxo) + accounts[0].balance
  {
    var genesis, first := GenesisBlock(0, accounts), BlockWith(config, accounts, 0, now);
    var tx := SpendTipCoin(config, accounts);
    rival := BlockOf(config, accounts, [tx], later);
    TipIsGood(config, v, accounts, now);
    SpenderPasses(config, v, accounts, now, later, Replay([genesis, first]).utxo);
    SpenderReorgs(config, v, accounts, now, later, rival);
    DistinctPayment(tx);
    TakenIs(config, v, accounts, now);
    RivalOnGenesis(config.params, RegistryOf(v), genesis, first, rival, accounts[0].balance);
  }

  /** A reorg whose rival brings in what it takes from the tip mints just that. */
  lemma RivalStored(
    p: Params, registry: Registry, parent: seq<Block>, chain: seq<Block>, rival: Block, next: seq<Block>, minted: nat)
    requires GoodChain(p, registry, chain) && |chain| > 1 && Judge(p, DbOf(chain, registry), rival) == Reorged
    requires parent == Prefix(chain) && next == parent + [rival]
    requires NoOverflows(rival.txs) && InputsDistinct(rival.txs)
    requires BlockIn(rival.txs, Replay(chain).utxo) == BlockOut(rival.txs)
    requires Value(Taken(|chain| - 1, Replay(parent), Last(chain).txs, rival.txs)) == minted
    ensures DbAfter(DbOf(chain, registry), Reorged, rival) == DbOf(next, registry)
    ensures Value(Replay(next).utxo) == Value(Replay(parent).utxo) + minted
  {
    GoodLosesNothing(p, registry, chain, rival);
    ReorgMints(p, registry, chain, rival);
  }

  lemma TwoBlocks(a: Block, b: Block, c: Block)
    ensures Prefix([a, b]) == [a] && Last([a, b]) == b && [a, c] == [a] + [c]
  {
  }

  lemma RivalOnGenesis(p: Params, registry: Registry, genesis: Block, first: Block, rival: Block, minted: nat)
    requires GoodChain(p, registry, [genesis, first])
    requires Judge(p, DbOf([genesis, first], registry), rival) == Reorged
    requires NoOverflows(rival.txs) && InputsDistinct(rival.txs)
    requires BlockIn(rival.txs, Replay([genesis, first]).utxo) == BlockOut(rival.txs)
    requires Value(Taken(1, Replay([genesis]), first.txs, rival.txs)) == minted
    ensures DbAfter(DbOf([genesis, first], registry), Reorged, rival) == DbOf([genesis, rival], registry)
    ensures Value(Replay([genesis, rival]).utxo) == Value(Replay([genesis]).utxo) + minted
  {
    TwoBlocks(genesis, first, rival);
    RivalStored(p, registry, [genesis], [genesis, first], rival, [genesis, rival], minted);
  }

  lemma TakenIs(config: Config, v: Validator, accounts: seq<GenesisAccount>, now: I64)
    requires Alone(config, v, accounts) && accounts != [] && Opportune(config.params, now)
    ensures var genesis, first := GenesisBlock(0, accounts), BlockWith(config, accounts, 0, now);
            var tx := SpendTipCoin(config, accounts);
            var above := Replay([genesis, first]).utxo;
            && BlockIn([tx], above) == BlockOut([tx])
            && Value(Taken(1, Replay([genesis]), first.txs, [tx])) == accounts[0].balance
  {
    var genesis, first := GenesisBlock(0, accounts), BlockWith(config, accounts, 0, now);
    var tx := SpendTipCoin(config, accounts);
    TipCoinThere(config, v, accounts, now);
    SpenderPasses(config, v, accounts, now, now, Replay([genesis, first]).utxo);
    ReplayOnGenesis(genesis, first);
    OneTxWorth(tx, TipCoin(config, accounts), Replay([genesis, first]).utxo, TxsOuts(first.txs));
  }

  // ── A drained transaction that is no longer valid ──────────────────────────

  /** The first account's balance to somebody else. */
  function PayElse(config: Config, accounts: seq<GenesisAccount>): Transaction
    requires accounts != []
  {
    Payment(config.mySigningKey, FirstCoin(accounts), accounts[0].balance, accounts[0].address + 1)
  }

  lemma PayElseAccepted(config: Config, v: Validator, accounts: seq<GenesisAccount>, now: I64)
    requires Alone(config, v, accounts) && Opportune(config.params, now) && accounts != []
    ensures var genesis, tx := GenesisBlock(0, accounts), PayElse(config, accounts);
            && Linked([genesis]) && Rival(config.params, RegistryOf(v), [genesis], BlockOf(config, accounts, [tx], now))
            && AcceptedOn(config.params, RegistryOf(v), [genesis], BlockOf(config, accounts, [tx], now))
            && NoOverflows([tx]) && Ins(tx) == {FirstCoin(accounts)} && tx != Pay(config, accounts[0])
  {
    var genesis, tx := GenesisBlock(0, accounts), PayElse(config, accounts);
    FirstCoinThere(config, v, accounts);
    PaymentPasses(config.mySigningKey, Replay([genesis]).utxo, FirstCoin(accounts), accounts[0].address + 1);
    OnlyPayment(tx, Replay([genesis]).utxo);
    AcceptedOnGenesis(config, v, accounts, [tx], now);
    assert tx.outputs[0] != Pay(config, accounts[0]).outputs[0];
  }

  /** The conflicting block leaves the pooled payment where it is. */
  lemma ConflictArrives(config: Config, v: Validator, accounts: seq<GenesisAccount>, now: I64)
    requires Alone(config, v, accounts) && Opportune(config.params, now) && accounts != []
    ensures var genesis, tx := GenesisBlock(0, accounts), Pay(config, accounts[0]);
            var block := BlockOf(config, accounts, [PayElse(config, accounts)], now);
            var before, e := StateWith([genesis], v, map[TxHash(tx) := tx]), BlockArrives(block);
            Step(config, before, e, StateWith([genesis, block], v, map[TxHash(tx) := tx])) && Careful(config, before, e)
  {
    var genesis, tx, other := GenesisBlock(0, accounts), Pay(config, accounts[0]), PayElse(config, accounts);
    var block, pool: Pool := BlockOf(config, accounts, [other], now), map[TxHash(tx) := tx];
    PayElseAccepted(config, v, accounts, now);
    GenesisIsGood(config.params, 0, accounts, RegistryOf(v));
    NotRemoved(tx, other);
    Accepts(config, RegistryOf(v), genesis, block, pool);
  }

  lemma Accepts(config: Config, registry: Registry, genesis: Block, block: Block, pool: Pool)
    requires Linked([genesis]) && Rival(config.params, registry, [genesis], block) && NoOverflows(block.txs)
    requires RemoveAll(pool, TxHashes(block.txs)) == pool
    ensures var before, e := NodeState(DbOf([genesis], registry), pool), BlockArrives(block);
            Step(config, before, e, NodeState(DbOf([genesis, block], registry), pool)) && Careful(config, before, e)
  {
    FirstArrives(config.params, registry, [genesis], block);
    assert [genesis] + [block] == [genesis, block];
  }

  lemma NotRemoved(tx: Transaction, other: Transaction)
    requires tx != other
    ensures var pool: Pool := map[TxHash(tx) := tx];
            RemoveAll(pool, TxHashes([other])) == pool
  {
    var pool: Pool := map[TxHash(tx) := tx];
    forall h | h in TxHashes([other]) ensures h !in pool {
      assert h == TxHash(other);
    }
  }

  lemma NowSpent(config: Config, v: Validator, accounts: seq<GenesisAccount>, now: I64)
    requires Alone(config, v, accounts) && Opportune(config.params, now) && accounts != []
    ensures var chain := [GenesisBlock(0, accounts), BlockOf(config, accounts, [PayElse(config, accounts)], now)];
            !ValidTx(Pay(config, accounts[0]), Replay(chain).utxo)
  {
    var genesis, tx, other := GenesisBlock(0, accounts), Pay(config, accounts[0]), PayElse(config, accounts);
    var block, ref := BlockOf(config, accounts, [other], now), FirstCoin(accounts);
    PayElseAccepted(config, v, accounts, now);
    GenesisIsGood(config.params, 0, accounts, RegistryOf(v));
    AcceptedIsFresh(config.params, RegistryOf(v), [genesis], block);
    ReplayOnGenesis(genesis, block);
    OneRef(other);
    AppliedRef(1, Replay([genesis]), [other], ref);
    assert tx.inputs[0] in tx.inputs && tx.inputs[0].outRef == ref;
  }

  lemma StoredTwo(config: Config, v: Validator, genesis: Block, block: Block)
    requires block.header.height == 1
    ensures var db := DbOf([genesis, block], RegistryOf(v));
            && db.tip == Some(Tip(1, BlockHash(block))) && 1 in db.blocksH && db.blocksH[1] == block
            && db.registry == RegistryOf(v) && db.utxo == Replay([genesis, block]).utxo
  {
  }

  /** In a later slot this node drains the pool and proposes what its own validator refuses. */
  lemma RefusedProposal(
    config: Config, v: Validator, genesis: Block, block: Block, tx: Transaction, later: I64, proposal: Block)
    requires GoodChain(config.params, RegistryOf(v), [genesis, block]) && !ValidTx(tx, Replay([genesis, block]).utxo)
    requires KeyMatches(config) && v.pubkey == VerifyingKey(config.mySigningKey) && v.address == config.myAddress
    requires v.stake > 0 && v.activeSince == 0
    requires Opportune(config.params, later) && block.header.slot < SlotOf(config.params, later)
    requires proposal == BuildBlock(config, Tip(1, BlockHash(block)), SlotOf(config.params, later), later, [tx])
    ensures TickSlot(config, DbOf([genesis, block], RegistryOf(v)), later) == Some(SlotOf(config.params, later))
    ensures BlockVerdict(config.params, proposal, block, Replay([genesis, block]).utxo, RegistryOf(v))
         == Err(InvalidTransaction)
  {
    var chain, slot := [genesis, block], SlotOf(config.params, later);
    LastHeight(config.params, RegistryOf(v), chain);
    StoredTwo(config, v, genesis, block);
    OnlyValidator(v, slot);
    Proposals.SoleValidatorProposes(config, DbOf(chain, RegistryOf(v)), later, v);
    assert TipOf(chain) == Some(Tip(1, BlockHash(block)));
    Proposals.ProposedHeaderPasses(config, RegistryOf(v), chain, later, [tx], proposal);
    assert tx in [tx];
  }

  lemma StaleSlot(
    config: Config, v: Validator, genesis: Block, block: Block, tx: Transaction, later: I64, proposal: Block)
    requires block.header.height == 1 && ClockOk(config.params, later)
    requires TickSlot(config, DbOf([genesis, block], RegistryOf(v)), later) == Some(SlotOf(config.params, later))
    requires proposal == BuildBlock(config, Tip(1, BlockHash(block)), SlotOf(config.params, later), later, [tx])
    ensures Step(config, StateWith([genesis, block], v, map[TxHash(tx) := tx]), SlotComes(later, [tx]),
                 StateWith([genesis, block, proposal], v, map[]))
  {
    var db, after := DbOf([genesis, block], RegistryOf(v)), DbOf([genesis, block, proposal], RegistryOf(v));
    StoredTwo(config, v, genesis, block);
    ThirdStored(RegistryOf(v), genesis, block, proposal, db, after);
    SlotTaken(config, db, tx, later, SlotOf(config.params, later), Tip(1, BlockHash(block)), proposal, after);
  }

  lemma ThirdStored(registry: Registry, genesis: Block, block: Block, proposal: Block, db: Db, after: Db)
    requires proposal.header.height == 2
    requires db == DbOf([genesis, block], registry) && after == DbOf([genesis, block, proposal], registry)
    ensures Durability.Extend(db, proposal) == after
  {
    Durability.ExtendStored([genesis, block], proposal, registry);
    assert [genesis, block] + [proposal] == [genesis, block, proposal];
  }

  // ── The runs ───────────────────────────────────────────────────────────────

  /** A run, and one more step that is not careful. */
  ghost predicate CarefulButLast(config: Config, states: seq<NodeState>, events: seq<Event>) {
    && events != [] && |states| == |events| + 1
    && CarefulRun(config, states[..|events|], events[..|events| - 1])
    && Step(config, states[|events| - 1], events[|events| - 1], states[|events|])
  }

  ghost function CarefulStep(config: Config): (NodeState, Event, NodeState) -> bool {
    (s: NodeState, e: Event, t: NodeState) => Step(config, s, e, t) && Careful(config, s, e)
  }

  lemma TwoSteps(config: Config, s0: NodeState, s1: NodeState, s2: NodeState, e0: Event, e1: Event)
    requires CarefulStep(config)(s0, e0, s1) && CarefulStep(config)(s1, e1, s2)
    ensures CarefulRun(config, [s0, s1, s2], [e0, e1])
  {
    var states, events := [s0, s1, s2], [e0, e1];
    forall i | 0 <= i < 2 ensures CarefulStep(config)(states[i], events[i], states[i + 1]) {
    }
  }

  lemma LastStep(config: Config, states: seq<NodeState>, events: seq<Event>, s: NodeState, e: Event, t: NodeState)
    requires CarefulRun(config, states, events) && s == states[|events|] && Step(config, s, e, t)
    ensures CarefulButLast(config, states + [t], events + [e])
  {
    var after, more := states + [t], events + [e];
    assert after[..|more|] == states && more[..|more| - 1] == events;
    assert after[|more| - 1] == s && after[|more|] == t;
  }

  lemma ThreeSteps(
    config: Config, s0: NodeState, s1: NodeState, s2: NodeState, s3: NodeState, e0: Event, e1: Event, e2: Event)
    returns (states: seq<NodeState>, events: seq<Event>)
    requires Step(config, s0, e0, s1) && Step(config, s1, e1, s2) && Step(config, s2, e2, s3)
    requires Careful(config, s0, e0) && Careful(config, s1, e1)
    ensures CarefulButLast(config, states, events) && states == [s0, s1, s2, s3] && events == [e0, e1, e2]
  {
    TwoSteps(config, s0, s1, s2, e0, e1);
    LastStep(config, [s0, s1, s2], [e0, e1], s2, e2, s3);
    states, events := [s0, s1, s2] + [s3], [e0, e1] + [e2];
  }

  lemma FirstPooled(config: Config, v: Validator, accounts: seq<GenesisAccount>)
    requires Alone(config, v, accounts) && accounts != [] && config.mempoolMaxSize > 0
    ensures var genesis, tx := GenesisBlock(0, accounts), Pay(config, accounts[0]);
            var before, after := StateWith([genesis], v, map[]), StateWith([genesis], v, map[TxHash(tx) := tx]);
            Step(config, before, TxArrives(tx), after) && Careful(config, before, TxArrives(tx))
  {
    PayValid(config, v, accounts, 0);
    Pooled(config, DbOf([GenesisBlock(0, accounts)], RegistryOf(v)), Pay(config, accounts[0]));
  }

  /** Genesis, a payment pooled, proposed, and displaced by a rival that spends what the payment made. */
  lemma MintingRun(config: Config, v: Validator, accounts: seq<GenesisAccount>, now: I64, later: I64)
    returns (states: seq<NodeState>, events: seq<Event>)
    requires Alone(config, v, accounts) && accounts != [] && config.mempoolMaxSize > 0
    requires Opportune(config.params, now) && Opportune(config.params, later)
    requires config.params.digestValue(BlockHash(BlockOf(config, accounts, [SpendTipCoin(config, accounts)], later)))
           < config.params.digestValue(BlockHash(BlockWith(config, accounts, 0, now)))
    ensures CarefulButLast(config, states, events) && |events| == 3 && events[2].BlockArrives?
    ensures NoOverflows(events[2].block.txs) && InputsDistinct(events[2].block.txs)
    ensures states[0].db == DbOf([GenesisBlock(0, accounts)], RegistryOf(v))
    ensures var rival := BlockOf(config, accounts, [SpendTipCoin(config, accounts)], later);
            states[3] == StateWith([GenesisBlock(0, accounts), rival], v, map[])
    ensures Value(states[3].db.utxo) == Value(states[0].db.utxo) + accounts[0].balance
  {
    var genesis, first, tx := GenesisBlock(0, accounts), BlockWith(config, accounts, 0, now), Pay(config, accounts[0]);
    var rival := MintingReorg(config, v, accounts, now, later);
    var s0, s1 := StateWith([genesis], v, map[]), StateWith([genesis], v, map[TxHash(tx) := tx]);
    var s2, s3 := StateWith([genesis, first], v, map[]), StateWith([genesis, rival], v, map[]);
    FirstPooled(config, v, accounts);
    FirstProposed(config, v, accounts, now);
    BlockStored(config, s2.db, rival, s3.db);
    states, events := ThreeSteps(config, s0, s1, s2, s3, TxArrives(tx), SlotComes(now, [tx]), BlockArrives(rival));
  }

  lemma BlockStored(config: Config, db: Db, block: Block, after: Db)
    requires DbAfter(db, Judge(config.params, db, block), block) == after
    ensures Step(config, NodeState(db, map[]), BlockArrives(block), NodeState(after, map[]))
  {
    assert RemoveAll(map[], TxHashes(block.txs)) == map[];
  }

  /** Genesis, a payment pooled, a conflicting block accepted, and the payment proposed all the same. */
  lemma StaleRun(config: Config, v: Validator, accounts: seq<GenesisAccount>, now: I64, later: I64)
    returns (states: seq<NodeState>, events: seq<Event>, parent: Block, proposal: Block)
    requires Alone(config, v, accounts) && accounts != [] && config.mempoolMaxSize > 0
    requires Opportune(config.params, now) && Opportune(config.params, later)
    requires SlotOf(config.params, now) < SlotOf(config.params, later)
    ensures CarefulButLast(config, states, events) && |events| == 3
    ensures states[0].db == DbOf([GenesisBlock(0, accounts)], RegistryOf(v))
    ensures states[2].db == DbOf([GenesisBlock(0, accounts), parent], RegistryOf(v))
    ensures states[3].db == DbOf([GenesisBlock(0, accounts), parent, proposal], RegistryOf(v))
    ensures BlockVerdict(config.params, proposal, parent, states[2].db.utxo, RegistryOf(v)) == Err(InvalidTransaction)
  {
    var genesis, tx := GenesisBlock(0, accounts), Pay(config, accounts[0]);
    parent := BlockOf(config, accounts, [PayElse(config, accounts)], now);
    proposal := BuildBlock(config, Tip(1, BlockHash(parent)), SlotOf(config.params, later), later, [tx]);
    var s0, s1 := StateWith([genesis], v, map[]), StateWith([genesis], v, map[TxHash(tx) := tx]);
    var s2 := StateWith([genesis, parent], v, map[TxHash(tx) := tx]);
    var s3 := StateWith([genesis, parent, proposal], v, map[]);
    FirstPooled(config, v, accounts);
    ConflictArrives(config, v, accounts, now);
    ConflictIsGood(config, v, accounts, now);
    NowSpent(config, v, accounts, now);
    RefusedProposal(config, v, genesis, parent, tx, later, proposal);
    StaleSlot(config, v, genesis, parent, tx, later, proposal);
    states, events := ThreeSteps(config, s0, s1, s2, s3, TxArrives(tx), BlockArrives(parent), SlotComes(later, [tx]));
  }

  lemma ConflictIsGood(config: Config, v: Validator, accounts: seq<GenesisAccount>, now: I64)
    requires Alone(config, v, accounts) && accounts != [] && Opportune(config.params, now)
    ensures GoodChain(config.params, RegistryOf(v),
                      [GenesisBlock(0, accounts), BlockOf(config, accounts, [PayElse(config, accounts)], now)])
  {
    var genesis, block := GenesisBlock(0, accounts), BlockOf(config, accounts, [PayElse(config, accounts)], now);
    GenesisIsGood(config.params, 0, accounts, RegistryOf(v));
    PayElseAccepted(config, v, accounts, now);
    Durability.GoodExtended(config.params, RegistryOf(v), [genesis], block);
    assert [genesis] + [block] == [genesis, block];
  }

  /** Both runs exist, and so does a chain that accepts a block that doubles an output. */
  lemma MintingRunExists() returns (config: Config, states: seq<NodeState>, events: seq<Event>)
    ensures CarefulButLast(config, states, events) && |events| == 3 && events[2].BlockArrives?
    ensures NoOverflows(events[2].block.txs) && InputsDistinct(events[2].block.txs)
    ensures Value(states[3].db.utxo) > Value(states[0].db.utxo)
  {
    var draft, v, accounts := SampleNetwork({});
    config, v, accounts := SampleNetwork({BlockHash(BlockOf(draft, accounts, [SpendTipCoin(draft, accounts)], 16))});
    states, events := MintingRun(config, v, accounts, 15, 16);
  }

  lemma StaleRunExists() returns (
    config: Config, registry: Registry, states: seq<NodeState>, events: seq<Event>,
    genesis: Block, parent: Block, proposal: Block)
    ensures CarefulButLast(config, states, events) && |events| == 3
    ensures states[3].db == DbOf([genesis, parent, proposal], registry)
    ensures BlockVerdict(config.params, proposal, parent, states[2].db.utxo, registry) == Err(InvalidTransaction)
  {
    var v, accounts;
    config, v, accounts := SampleNetwork({});
    registry := RegistryOf(v);
    genesis := GenesisBlock(0, accounts);
    states, events, parent, proposal := StaleRun(config, v, accounts, 15, 25);
  }

  lemma DoubleSpendExists() returns (p: Params, registry: Registry, genesis: Block, block: Block)
    ensures GoodChain(p, registry, [genesis]) && AcceptedOn(p, registry, [genesis], block)
    ensures Value(Replay([genesis, block]).utxo) > Value(Replay([genesis]).utxo)
  {
    var config, v, accounts := SampleNetwork({});
    p, registry, genesis := config.params, RegistryOf(v), GenesisBlock(0, accounts);
    block := AcceptedDoubleSpend(config, v, accounts, 15, v.address + 1);
  }

  /** One validator with one account, and slots of ten seconds; the hashes in `low` are below all others. */
  lemma SampleNetwork(low: set<Digest>) returns (config: Config, v: Validator, accounts: seq<GenesisAccount>)
    ensures config == Config(Params(10, config.params.digestValue, config.params.digestPrefix), SAMPLE, SecretKey(1), 1)
    ensures forall d :: config.params.digestValue(d) == if d in low then 0 else 1
    ensures accounts == [GenesisAccount(SAMPLE, 10)] && v == Validator(SAMPLE, VerifyingKey(SecretKey(1)), 1, 0)
    ensures Alone(config, v, accounts)
    ensures Opportune(config.params, 15) && Opportune(config.params, 16) && Opportune(config.params, 25)
    ensures SlotOf(config.params, 15) < SlotOf(config.params, 25)
  {
    var params := Params(10, (d: Digest) => if d in low then 0 else 1, (d: Digest) => 0);
    config := Config(params, SAMPLE, SecretKey(1), 1);
    v, accounts := Validator(SAMPLE, VerifyingKey(SecretKey(1)), 1, 0), [GenesisAccount(SAMPLE, 10)];
    TenSecondSlots(config);
  }

  const SAMPLE: Address := AddressOf(VerifyingKey(SecretKey(1)))
}
