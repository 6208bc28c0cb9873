/**
 A run after which the coins are not the replay of the stored blocks. One reorg
 stores a transaction whose input is gone; when that input comes back the
 transaction comes back too, makes its output once more, and a second reorg,
 careful in itself, takes that output away from the block that made it first.
 */
module Resurrection {
  import opened Types
  import opened Ledger
  import Validators
  import opened Validation
  import Storage
  import opened Chain
  import opened Durability
  import Conservation
  import opened Nodes
  import Proposals
  import opened Runs
  import Genesis
  import ForkChoice
  import opened Scenario
  import opened Counterexamples

  // ── Blocks of a lone validator on any chain ────────────────────────────────

  function BlockAfter(config: Config, parent: Block, txs: seq<Transaction>, now: I64): Block
    requires ClockOk(config.params, now)
  {
    BuildBlock(config, Storage.Tip(parent.header.height, BlockHash(parent)), SlotOf(config.params, now), now, txs)
  }

  /** A time in a later slot than the parent's. */
  predicate After(p: Params, parent: Block, now: I64) {
    Opportune(p, now) && parent.header.slot < SlotOf(p, now) && parent.header.timestamp <= now
  }

  /** All that can be wrong with such a block is its transactions, whatever chain it stands on. */
  lemma MadeOnTop(
    config: Config, v: Validator, accounts: seq<GenesisAccount>, chain: seq<Block>, txs: seq<Transaction>, now: I64,
    utxo: Utxo)
    requires Alone(config, v, accounts) && Linked(chain) && After(config.params, Last(chain), now)
    ensures var block := BlockAfter(config, Last(chain), txs, now);
            && BlockVerdict(config.params, block, Last(chain), utxo, RegistryOf(v))
               == (if AllValid(txs, utxo) then Ok(()) else Err(InvalidTransaction))
            && Linked(chain + [block])
  {
    var block, db := BlockAfter(config, Last(chain), txs, now), DbOf(chain, RegistryOf(v));
    OnlyValidator(v, SlotOf(config.params, now));
    Proposals.SoleValidatorProposes(config, db, now, v);
    Proposals.ProposedHeaderIs(config, db, Last(chain), now, txs, block);
    LinkedMore(chain, block);
  }

  lemma TakenOnTop(config: Config, registry: Validators.Registry, chain: seq<Block>, block: Block, next: seq<Block>)
    requires Linked(chain) && next == chain + [block]
    requires BlockVerdict(config.params, block, Last(chain), Replay(chain).utxo, registry) == Ok(())
    requires NoOverflows(block.txs)
    ensures var before, e := NodeState(DbOf(chain, registry), map[]), BlockArrives(block);
            Step(config, before, e, NodeState(DbOf(next, registry), map[])) && Careful(config, before, e)
  {
    var db := DbOf(chain, registry);
    VerdictLinks(config.params, block, Last(chain), Replay(chain).utxo, registry);
    NextHashIsNew(chain, block);
    assert Judge(config.params, db, block) == Accepted;
    ExtendStored(chain, block, registry);
    BlockStored(config, db, block, DbOf(next, registry));
  }

  /** Such a block with one valid transaction is taken. */
  lemma OneTaken(
    config: Config, v: Validator, accounts: seq<GenesisAccount>, chain: seq<Block>, tx: Transaction, now: I64)
    returns (next: seq<Block>)
    requires Alone(config, v, accounts) && Linked(chain) && After(config.params, Last(chain), now)
    requires ValidTx(tx, Replay(chain).utxo) && NoOverflow(tx)
    ensures Linked(next) && next == chain + [BlockAfter(config, Last(chain), [tx], now)]
    ensures Replay(next) == ApplyTxs(|chain|, Replay(chain), [tx])
    ensures var before, e := StateWith(chain, v, map[]), BlockArrives(Last(next));
            Step(config, before, e, StateWith(next, v, map[])) && Careful(config, before, e)
  {
    var block := BlockAfter(config, Last(chain), [tx], now);
    next := chain + [block];
    MadeOnTop(config, v, accounts, chain, [tx], now, Replay(chain).utxo);
    OnlyPayment(tx, Replay(chain).utxo);
    TakenOnTop(config, RegistryOf(v), chain, block, next);
    BlocksExtend(chain, block);
  }

  /** An empty block of a lower hash next to the tip replaces it. */
  lemma EmptyReplaces(
    config: Config, v: Validator, accounts: seq<GenesisAccount>, parents: seq<Block>, tip: Block, now: I64)
    returns (rival: Block)
    requires Alone(config, v, accounts) && Linked(parents) && Linked(parents + [tip])
    requires After(config.params, Last(parents), now)
    requires config.params.digestValue(BlockHash(BlockAfter(config, Last(parents), [], now)))
           < config.params.digestValue(BlockHash(tip))
    ensures rival == BlockAfter(config, Last(parents), [], now)
    ensures var db := DbOf(parents + [tip], RegistryOf(v));
            && Judge(config.params, db, rival) == Reorged && DbAfter(db, Reorged, rival) == Reorg(db, tip, rival)
  {
    rival := BlockAfter(config, Last(parents), [], now);
    var db := DbOf(parents + [tip], RegistryOf(v));
    MadeOnTop(config, v, accounts, parents, [], now, db.utxo);
    TipRecords(parents, tip);
    ForkChoice.JudgeBeside(config.params, parents, tip, db, rival);
    assert TipBlock(db) == Some(tip);
  }

  // ── What the second reorg takes ────────────────────────────────────────────

  /** Undoing a block that made `ref` once more, for an empty one: the stored chain has `ref`, the coins do not. */
  lemma TakesAway(parents: seq<Block>, tip: Block, rival: Block, registry: Validators.Registry, ref: TxOutRef)
    requires Linked(parents + [tip]) && Linked(parents + [rival]) && rival.txs == []
    requires ref in Replay(parents).utxo && ref in TxsOuts(tip.txs) && ref !in TxsIns(tip.txs)
    ensures var db := Reorg(DbOf(parents + [tip], registry), tip, rival);
            && StoredChain(db) == parents + [rival] && Shaped(db) && !Replays(registry, db)
            && ref in Replay(StoredChain(db)).utxo && ref !in db.utxo
  {
    var db := DbOf(parents + [tip], registry);
    TipReplaced(parents, tip, parents + [tip], rival, db, registry);
    RollbackStored(parents, tip, registry);
    TipRecords(parents, rival);
    ExtendOver(parents, Storage.RollbackBlock(db, tip), rival, registry);
    ReorgStores(parents, tip, rival, db);
    assert ref in Lost(Replay(parents).utxo, tip.txs);
    assert Replay(parents + [rival]) == Replay(parents);
  }

  // ── The transactions ───────────────────────────────────────────────────────

  /** The output that `SpendTipCoin` makes. */
  function SpentOn(config: Config, accounts: seq<GenesisAccount>): TxOutRef
    requires accounts != []
  {
    TxOutRef(TxHash(SpendTipCoin(config, accounts)), 0)
  }

  /** The payment spends the first coin and makes the tip coin; the spender spends that and makes another. */
  lemma Differ(config: Config, accounts: seq<GenesisAccount>)
    requires accounts != []
    ensures var coin, tipCoin, last := FirstCoin(accounts), TipCoin(config, accounts), SpentOn(config, accounts);
            && coin != tipCoin && coin != last && tipCoin != last
            && Ins(Pay(config, accounts[0])) == {coin} && Outs(Pay(config, accounts[0])).Keys == {tipCoin}
            && Ins(SpendTipCoin(config, accounts)) == {tipCoin} && Outs(SpendTipCoin(config, accounts)).Keys == {last}
  {
    var allocation, pay, spend := AllocationTx(accounts[0]), Pay(config, accounts[0]), SpendTipCoin(config, accounts);
    assert allocation.inputs == [] && |pay.inputs| == |spend.inputs| == 1;
    assert pay.inputs[0].outRef == FirstCoin(accounts) && spend.inputs[0].outRef == TipCoin(config, accounts);
    assert pay.inputs[0] in pay.inputs && spend.inputs[0] in spend.inputs;
    assert |pay.outputs| == |spend.outputs| == 1;
  }

  /** A single transaction, output by output. */
  lemma AfterOne(height: nat, c: Coins, tx: Transaction, ref: TxOutRef)
    requires Ins(tx) !! Outs(tx).Keys
    ensures var utxo := ApplyTxs(height, c, [tx]).utxo;
            && (ref in utxo <==> ref in Outs(tx) || (ref in c.utxo && ref !in Ins(tx)))
            && (ref in Outs(tx) ==> utxo[ref] == Named(ref))
            && (ref in c.utxo && ref !in Ins(tx) && ref !in Outs(tx) ==> utxo[ref] == c.utxo[ref])
  {
    OneRef(tx);
    AppliedRef(height, c, [tx], ref);
  }

  /** Whatever became of the payment, the first coin is there again and so is what the spender made. */
  lemma PayAgain(config: Config, v: Validator, accounts: seq<GenesisAccount>, c: Coins)
    requires Alone(config, v, accounts) && accounts != []
    requires c == ApplyTxs(1, Replay([GenesisBlock(0, accounts)]), [SpendTipCoin(config, accounts)])
    ensures SpentOn(config, accounts) in c.utxo
    ensures ValidTx(Pay(config, accounts[0]), c.utxo) && NoOverflow(Pay(config, accounts[0]))
  {
    var base := Replay([GenesisBlock(0, accounts)]);
    Differ(config, accounts);
    PayValid(config, v, accounts, 0);
    AfterOne(1, base, SpendTipCoin(config, accounts), FirstCoin(accounts));
    AfterOne(1, base, SpendTipCoin(config, accounts), SpentOn(config, accounts));
    FirstCoinThere(config, v, accounts);
    ValidTxFrame(Pay(config, accounts[0]), base.utxo, c.utxo);
  }

  /** After the payment the spender is valid once more, though its output is there already. */
  lemma SpendAgain(config: Config, v: Validator, accounts: seq<GenesisAccount>, c: Coins, d: Coins)
    requires Alone(config, v, accounts) && accounts != []
    requires SpentOn(config, accounts) in c.utxo && d == ApplyTxs(2, c, [Pay(config, accounts[0])])
    ensures SpentOn(config, accounts) in d.utxo
    ensures ValidTx(SpendTipCoin(config, accounts), d.utxo) && NoOverflow(SpendTipCoin(config, accounts))
  {
    Differ(config, accounts);
    AfterOne(2, c, Pay(config, accounts[0]), SpentOn(config, accounts));
    AfterOne(2, c, Pay(config, accounts[0]), TipCoin(config, accounts));
    assert Named(TipCoin(config, accounts)) == TxOutput(accounts[0].balance, accounts[0].address);
    Conservation.PaymentPasses(config.mySigningKey, d.utxo, TipCoin(config, accounts), accounts[0].address);
  }

  // ── The run ────────────────────────────────────────────────────────────────

  /** Every step but the one at `k` is careful. */
  ghost predicate CarefulBut(config: Config, states: seq<NodeState>, events: seq<Event>, k: nat) {
    && IsRun(config, states, events)
    && forall i :: 0 <= i < |events| && i != k ==> Careful(config, states[i], events[i])
  }

  ghost function Taken(config: Config, k: nat): (nat, NodeState, Event, NodeState) -> bool {
    (n, s, e, t) => Step(config, s, e, t) && (n != k ==> Careful(config, s, e))
  }

  /** The same, step by step. */
  ghost predicate StepsBut(config: Config, states: seq<NodeState>, events: seq<Event>, k: nat) {
    && |states| == |events| + 1
    && (events != [] ==>
          var n := |events| - 1;
          && StepsBut(config, states[..n + 1], events[..n], k)
          && Taken(config, k)(n, states[n], events[n], states[n + 1]))
  }

  lemma {:induction false} StepIn(
    config: Config, states: seq<NodeState>, events: seq<Event>, k: nat, i: nat, s: NodeState, e: Event, t: NodeState)
    requires StepsBut(config, states, events, k) && i < |events|
    requires s == states[i] && e == events[i] && t == states[i + 1]
    ensures Taken(config, k)(i, s, e, t)
    decreases |events|
  {
    if i < |events| - 1 {
      StepIn(config, states[..|events|], events[..|events| - 1], k, i, s, e, t);
    }
  }

  lemma StepsAreRun(config: Config, states: seq<NodeState>, events: seq<Event>, k: nat)
    requires StepsBut(config, states, events, k)
    ensures CarefulBut(config, states, events, k)
  {
    forall i | 0 <= i < |events|
      ensures Step(config, states[i], events[i], states[i + 1]) && (i != k ==> Careful(config, states[i], events[i]))
    {
      StepIn(config, states, events, k, i, states[i], events[i], states[i + 1]);
    }
  }

  lemma {:induction false} RunIsSteps(config: Config, states: seq<NodeState>, events: seq<Event>, k: nat)
    requires CarefulBut(config, states, events, k)
    ensures StepsBut(config, states, events, k)
  {
    if events != [] {
      var n := |events| - 1;
      var early, before := states[..n + 1], events[..n];
      forall i | 0 <= i < n
        ensures Step(config, early[i], before[i], early[i + 1]) && (i != k ==> Careful(config, early[i], before[i]))
      {
        assert early[i] == states[i] && early[i + 1] == states[i + 1] && before[i] == events[i];
      }
      RunIsSteps(config, early, before, k);
    }
  }

  lemma OneCarelessStep(config: Config, states: seq<NodeState>, events: seq<Event>)
    requires CarefulButLast(config, states, events)
    ensures StepsBut(config, states, events, |events| - 1)
  {
    var n := |events| - 1;
    RunIsSteps(config, states[..n + 1], events[..n], n);
  }

  lemma OneMoreStep(
    config: Config, states: seq<NodeState>, events: seq<Event>, k: nat, s: NodeState, e: Event, t: NodeState)
    requires StepsBut(config, states, events, k) && s == states[|events|]
    requires Step(config, s, e, t) && Careful(config, s, e)
    ensures StepsBut(config, states + [t], events + [e], k) && (states + [t])[|events + [e]|] == t
  {
    var more, all := states + [t], events + [e];
    assert more[..|events| + 1] == states && all[..|events|] == events;
    assert Taken(config, k)(|events|, s, e, t);
  }

  /** When the blocks of the run are made. */
  datatype Times = Times(first: I64, rival: I64, second: I64, third: I64, last: I64)

  ghost predicate InOrder(p: Params, t: Times) {
    && Opportune(p, t.first) && Opportune(p, t.rival) && Opportune(p, t.second)
    && Opportune(p, t.third) && Opportune(p, t.last)
    && SlotOf(p, t.rival) < SlotOf(p, t.second) < SlotOf(p, t.third) && SlotOf(p, t.second) < SlotOf(p, t.last)
    && t.rival <= t.second <= t.third && t.second <= t.last
  }

  /** The rival that spends what the tip made. */
  function Minter(config: Config, accounts: seq<GenesisAccount>, t: Times): Block
    requires accounts != [] && ClockOk(config.params, t.rival)
  {
    BlockOf(config, accounts, [SpendTipCoin(config, accounts)], t.rival)
  }

  /** On top of it the payment comes again. */
  function Second(config: Config, accounts: seq<GenesisAccount>, t: Times): Block
    requires accounts != [] && ClockOk(config.params, t.rival) && ClockOk(config.params, t.second)
  {
    BlockAfter(config, Minter(config, accounts, t), [Pay(config, accounts[0])], t.second)
  }

  /** And on top of that the spender. */
  function Third(config: Config, accounts: seq<GenesisAccount>, t: Times): Block
    requires accounts != [] && ClockOk(config.params, t.rival) && ClockOk(config.params, t.second)
    requires ClockOk(config.params, t.third)
  {
    BlockAfter(config, Second(config, accounts, t), [SpendTipCoin(config, accounts)], t.third)
  }

  /** An empty block replaces the last one. */
  function Empty(config: Config, accounts: seq<GenesisAccount>, t: Times): Block
    requires accounts != [] && ClockOk(config.params, t.rival) && ClockOk(config.params, t.second)
    requires ClockOk(config.params, t.last)
  {
    BlockAfter(config, Second(config, accounts, t), [], t.last)
  }

  ghost predicate Lower(p: Params, a: Block, b: Block) {
    p.digestValue(BlockHash(a)) < p.digestValue(BlockHash(b))
  }

  /** A run that ends with one more valid transaction taken. */
  lemma RunTakes(
    config: Config, v: Validator, accounts: seq<GenesisAccount>, states: seq<NodeState>, events: seq<Event>, k: nat,
    chain: seq<Block>, tx: Transaction, now: I64)
    returns (more: seq<NodeState>, all: seq<Event>, next: seq<Block>)
    requires StepsBut(config, states, events, k) && states[|events|] == StateWith(chain, v, map[])
    requires Alone(config, v, accounts) && Linked(chain) && After(config.params, Last(chain), now)
    requires ValidTx(tx, Replay(chain).utxo) && NoOverflow(tx)
    ensures Linked(next) && next == chain + [BlockAfter(config, Last(chain), [tx], now)]
    ensures Replay(next) == ApplyTxs(|chain|, Replay(chain), [tx])
    ensures StepsBut(config, more, all, k) && more == states + [StateWith(next, v, map[])] && |all| == |events| + 1
  {
    next := OneTaken(config, v, accounts, chain, tx, now);
    var e, after := BlockArrives(Last(next)), StateWith(next, v, map[]);
    OneMoreStep(config, states, events, k, StateWith(chain, v, map[]), e, after);
    more, all := states + [after], events + [e];
  }

  /** A run that ends with an empty block in place of the tip, which takes an output away. */
  lemma RunLoses(
    config: Config, v: Validator, accounts: seq<GenesisAccount>, states: seq<NodeState>, events: seq<Event>, k: nat,
    parents: seq<Block>, tip: Block, now: I64, ref: TxOutRef)
    returns (more: seq<NodeState>, all: seq<Event>, after: NodeState)
    requires StepsBut(config, states, events, k) && states[|events|] == StateWith(parents + [tip], v, map[])
    requires Alone(config, v, accounts) && Linked(parents) && Linked(parents + [tip])
    requires After(config.params, Last(parents), now)
    requires Lower(config.params, BlockAfter(config, Last(parents), [], now), tip)
    requires ref in Replay(parents).utxo && ref in TxsOuts(tip.txs) && ref !in TxsIns(tip.txs)
    ensures StepsBut(config, more, all, k) && more == states + [after] && |all| == |events| + 1
    ensures Unreplayed(RegistryOf(v), after.db, ref)
    ensures StoredChain(after.db) == parents + [BlockAfter(config, Last(parents), [], now)]
  {
    var db, before := DbOf(parents + [tip], RegistryOf(v)), StateWith(parents + [tip], v, map[]);
    var rival := EmptyReplaces(config, v, accounts, parents, tip, now);
    MadeOnTop(config, v, accounts, parents, [], now, db.utxo);
    TakesAway(parents, tip, rival, RegistryOf(v), ref);
    after := NodeState(Reorg(db, tip, rival), map[]);
    BlockTaken(config, db, tip, rival);
    OneMoreStep(config, states, events, k, before, BlockArrives(rival), after);
    more, all := states + [after], events + [BlockArrives(rival)];
  }

  /** A linked chain is stored that has `ref` among its unspent outputs, and the coins lack it. */
  ghost predicate Unreplayed(registry: Validators.Registry, db: Storage.Db, ref: TxOutRef) {
    Shaped(db) && !Replays(registry, db) && ref in Replay(StoredChain(db)).utxo && ref !in db.utxo
  }

  /** The chain of the run before and after the last reorg, without the last block. */
  ghost predicate IsPaidAgain(config: Config, accounts: seq<GenesisAccount>, t: Times, paid: seq<Block>)
    requires accounts != [] && ClockOk(config.params, t.rival) && ClockOk(config.params, t.second)
  {
    && |paid| == 3 && paid[0] == GenesisBlock(0, accounts)
    && paid[1] == Minter(config, accounts, t) && paid[2] == Second(config, accounts, t)
  }

  lemma Minted(config: Config, v: Validator, accounts: seq<GenesisAccount>, t: Times, minted: seq<Block>)
    requires Alone(config, v, accounts) && accounts != [] && InOrder(config.params, t)
    requires minted == [GenesisBlock(0, accounts), Minter(config, accounts, t)]
    ensures Linked(minted) && Last(minted) == Minter(config, accounts, t)
    ensures SpentOn(config, accounts) in Replay(minted).utxo
    ensures ValidTx(Pay(config, accounts[0]), Replay(minted).utxo) && NoOverflow(Pay(config, accounts[0]))
  {
    ReplayOnGenesis(GenesisBlock(0, accounts), Minter(config, accounts, t));
    PayAgain(config, v, accounts, Replay(minted));
  }

  /** The run so far, and what follows from the first reorg. */
  lemma MintedRun(config: Config, v: Validator, accounts: seq<GenesisAccount>, t: Times)
    returns (states: seq<NodeState>, events: seq<Event>, minted: seq<Block>)
    requires Alone(config, v, accounts) && accounts != [] && config.mempoolMaxSize > 0 && InOrder(config.params, t)
    requires Lower(config.params, Minter(config, accounts, t), BlockWith(config, accounts, 0, t.first))
    ensures StepsBut(config, states, events, 2) && |events| == 3
    ensures states[0].db == DbOf([GenesisBlock(0, accounts)], RegistryOf(v)) && states[3] == StateWith(minted, v, map[])
    ensures |minted| == 2 && minted[0] == GenesisBlock(0, accounts) && minted[1] == Minter(config, accounts, t)
    ensures Linked(minted) && SpentOn(config, accounts) in Replay(minted).utxo
    ensures ValidTx(Pay(config, accounts[0]), Replay(minted).utxo) && NoOverflow(Pay(config, accounts[0]))
  {
    minted := [GenesisBlock(0, accounts), Minter(config, accounts, t)];
    states, events := MintingRun(config, v, accounts, t.first, t.rival);
    OneCarelessStep(config, states, events);
    Minted(config, v, accounts, t, minted);
  }

  lemma PaymentAgain(config: Config, v: Validator, accounts: seq<GenesisAccount>, t: Times)
    returns (states: seq<NodeState>, events: seq<Event>, paid: seq<Block>)
    requires Alone(config, v, accounts) && accounts != [] && config.mempoolMaxSize > 0 && InOrder(config.params, t)
    requires Lower(config.params, Minter(config, accounts, t), BlockWith(config, accounts, 0, t.first))
    ensures StepsBut(config, states, events, 2) && |events| == 4
    ensures states[0].db == DbOf([GenesisBlock(0, accounts)], RegistryOf(v)) && states[4] == StateWith(paid, v, map[])
    ensures IsPaidAgain(config, accounts, t, paid) && Linked(paid)
    ensures SpentOn(config, accounts) in Replay(paid).utxo
    ensures ValidTx(SpendTipCoin(config, accounts), Replay(paid).utxo) && NoOverflow(SpendTipCoin(config, accounts))
  {
    var minted;
    states, events, minted := MintedRun(config, v, accounts, t);
    states, events, paid :=
      RunTakes(config, v, accounts, states, events, 2, minted, Pay(config, accounts[0]), t.second);
    SpendAgain(config, v, accounts, Replay(minted), Replay(paid));
  }

  lemma SpenderAgain(config: Config, v: Validator, accounts: seq<GenesisAccount>, t: Times)
    returns (states: seq<NodeState>, events: seq<Event>, paid: seq<Block>)
    requires Alone(config, v, accounts) && accounts != [] && config.mempoolMaxSize > 0 && InOrder(config.params, t)
    requires Lower(config.params, Minter(config, accounts, t), BlockWith(config, accounts, 0, t.first))
    ensures StepsBut(config, states, events, 2) && |events| == 5
    ensures states[0].db == DbOf([GenesisBlock(0, accounts)], RegistryOf(v))
    ensures states[5] == StateWith(paid + [Third(config, accounts, t)], v, map[])
    ensures IsPaidAgain(config, accounts, t, paid) && Linked(paid) && Linked(paid + [Third(config, accounts, t)])
    ensures SpentOn(config, accounts) in Replay(paid).utxo
  {
    var spent;
    states, events, paid := PaymentAgain(config, v, accounts, t);
    states, events, spent :=
      RunTakes(config, v, accounts, states, events, 2, paid, SpendTipCoin(config, accounts), t.third);
  }

  /**
   From genesis: a payment pooled and proposed, displaced by a rival that spends
   what it made, then payment and spender once more, and the spender's block
   displaced by an empty one. Only the first reorg is careless, and it still
   leaves the replay of its blocks; the second one does not. The coins lack an
   output that the stored chain made and nothing on it spends.
   */
  lemma ResurrectionRun(config: Config, v: Validator, accounts: seq<GenesisAccount>, t: Times)
    returns (states: seq<NodeState>, events: seq<Event>, paid: seq<Block>)
    requires Alone(config, v, accounts) && accounts != [] && config.mempoolMaxSize > 0 && InOrder(config.params, t)
    requires Lower(config.params, Minter(config, accounts, t), BlockWith(config, accounts, 0, t.first))
    requires Lower(config.params, Empty(config, accounts, t), Third(config, accounts, t))
    ensures CarefulBut(config, states, events, 2) && |events| == 6
    ensures states[0].db == DbOf([GenesisBlock(0, accounts)], RegistryOf(v))
    ensures IsPaidAgain(config, accounts, t, paid)
    ensures states[5].db == DbOf(paid + [Third(config, accounts, t)], RegistryOf(v))
    ensures StoredChain(states[6].db) == paid + [Empty(config, accounts, t)]
    ensures Unreplayed(RegistryOf(v), states[6].db, SpentOn(config, accounts))
  {
    var after;
    states, events, paid := SpenderAgain(config, v, accounts, t);
    Differ(config, accounts);
    OneRef(SpendTipCoin(config, accounts));
    states, events, after := RunLoses(config, v, accounts, states, events, 2, paid, Third(config, accounts, t), t.last,
                                      SpentOn(config, accounts));
    StepsAreRun(config, states, events, 2);
  }

  /** And such a network exists. */
  lemma ResurrectionRunExists()
    returns (config: Config, registry: Validators.Registry, states: seq<NodeState>, events: seq<Event>, lost: TxOutRef)
    ensures CarefulBut(config, states, events, 2) && |events| == 6
    ensures Replays(registry, states[0].db) && Unreplayed(registry, states[6].db, lost)
  {
    var draft, v, accounts := SampleNetwork({});
    var t := Times(15, 16, 25, 35, 36);
    LateSlots(draft);
    var minter, empty := Minter(draft, accounts, t), Empty(draft, accounts, t);
    config, v, accounts := SampleNetwork({BlockHash(minter), BlockHash(empty)});
    LateSlots(config);
    registry, lost := RegistryOf(v), SpentOn(config, accounts);
    assert Minter(config, accounts, t) == minter && Empty(config, accounts, t) == empty;
    var paid;
    states, events, paid := ResurrectionRun(config, v, accounts, t);
    Genesis.GenesisIsGood(config.params, 0, accounts, registry);
    GoodChainLinks(config.params, registry, [GenesisBlock(0, accounts)]);
    StoredChainOf([GenesisBlock(0, accounts)], registry);
  }

  lemma LateSlots(config: Config)
    requires config.params.slotDuration == 10
    ensures InOrder(config.params, Times(15, 16, 25, 35, 36))
  {
    TenSecondSlots(config);
  }
}
