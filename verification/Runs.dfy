/**
 Runs of a node: any sequence of blocks and transactions arriving and slots
 coming round. In every run the stored blocks form a chain that only grows or
 swaps its tip. In which runs the coins are the replay of those blocks is told
 exactly; careful runs keep the chain valid as well.
 */
module Runs {
  import opened Types
  import opened Ledger
  import opened Validators
  import opened Validation
  import opened Storage
  import opened Chain
  import opened Durability
  import opened Conservation
  import opened Mempools
  import opened Nodes
  import Proposals

  datatype NodeState = NodeState(db: Db, pool: Pool)

  /** `picked` is what draining the pool yielded, should this node propose. */
  datatype Event =
    | BlockArrives(block: Block)
    | TxArrives(tx: Transaction)
    | SlotComes(now: I64, picked: seq<Transaction>)

  ghost predicate Step(config: Config, s: NodeState, e: Event, t: NodeState) {
    match e
    case BlockArrives(block) =>
      var judgement := Judge(config.params, s.db, block);
      t == NodeState(DbAfter(s.db, judgement, block), PoolAfter(s.pool, judgement, block))
    case TxArrives(tx) =>
      t.db == s.db && exists r :: AddStep(s.pool, config.mempoolMaxSize, tx, s.db.utxo, t.pool, r)
    case SlotComes(now, picked) =>
      ClockOk(config.params, now) &&
      var slot := TickSlot(config, s.db, now);
      if slot.None? then t == s
      else
        var block := BuildBlock(config, s.db.tip.value, slot.value, now, picked);
        && Drained(s.pool, picked)
        && t == NodeState(Extend(s.db, block), RemoveAll(s.pool, TxHashes(picked)))
  }

  /**
   What the code relies on without checking it. Output sums must not wrap
   around; a rival that replaces the tip must not spend the tip's own outputs;
   drained transactions must still be valid; the genesis block must not be dated
   in the future.
   */
  ghost predicate Careful(config: Config, s: NodeState, e: Event) {
    match e
    case BlockArrives(block) =>
      var judgement := Judge(config.params, s.db, block);
      && (judgement in {Accepted, Reorged} ==> NoOverflows(block.txs))
      && (judgement == Reorged && TipBlock(s.db).Some? ==> TxsIns(block.txs) !! TxsOuts(TipBlock(s.db).value.txs))
    case TxArrives(tx) => true
    case SlotComes(now, picked) =>
      ClockOk(config.params, now) && TickSlot(config, s.db, now).Some? ==>
        && NoOverflows(picked) && AllValid(picked, s.db.utxo)
        && (s.db.tip.value.height == 0 && 0 in s.db.blocksH ==> s.db.blocksH[0].header.timestamp <= now)
  }

  /** No pooled transaction is on the chain. */
  ghost predicate Unconfirmed(pool: Pool, chain: seq<Block>) {
    forall h, i :: h in pool && 0 <= i < |chain| ==> pool[h] !in chain[i].txs
  }

  /** The store is exactly that of a good chain; the pool holds nothing of that chain. */
  ghost predicate Inv(p: Params, registry: Registry, s: NodeState, chain: seq<Block>) {
    && GoodChain(p, registry, chain) && s.db == DbOf(chain, registry)
    && (forall h :: h in s.pool ==> TxHash(s.pool[h]) == h) && Unconfirmed(s.pool, chain)
  }

  /** How the chain may move in one step: not at all, one block up, or to a lower hash at the tip. */
  ghost predicate ChainStep(p: Params, a: seq<Block>, b: seq<Block>) {
    || a == b
    || (b != [] && Prefix(b) == a)
    || (|a| == |b| > 1 && Prefix(a) == Prefix(b)
        && p.digestValue(BlockHash(Last(b))) < p.digestValue(BlockHash(Last(a))))
  }

  /** The transactions that an event may bring onto the chain. */
  function Brought(e: Event): seq<Transaction> {
    match e
    case BlockArrives(block) => block.txs
    case TxArrives(tx) => []
    case SlotComes(now, picked) => picked
  }

  ghost predicate Brings(chain: seq<Block>, next: seq<Block>, e: Event) {
    next == chain || (next != [] && Prefix(next) <= chain && Last(next).txs == Brought(e))
  }

  /** The event puts a block on the chain: one that is accepted or displaces the tip, or one this node proposes. */
  predicate StoresBlock(config: Config, s: NodeState, e: Event) {
    match e
    case BlockArrives(block) => Judge(config.params, s.db, block) in {Accepted, Reorged}
    case TxArrives(tx) => false
    case SlotComes(now, picked) => ClockOk(config.params, now) && TickSlot(config, s.db, now).Some?
  }

  lemma StoresNothing(config: Config, s: NodeState, e: Event, t: NodeState)
    requires Step(config, s, e, t) && !StoresBlock(config, s, e)
    ensures t.db == s.db
  {
  }

  // ── The shape of the chain, in any run ─────────────────────────────────────

  /** A linked chain is stored, index and tip record included; nothing is said of the coins. */
  ghost predicate Shaped(db: Db) {
    Linked(StoredChain(db)) && Stores(db, StoredChain(db), db.registry)
  }

  lemma ShapedBy(chain: seq<Block>, db: Db)
    requires Linked(chain) && Stores(db, chain, db.registry)
    ensures StoredChain(db) == chain && Shaped(db)
  {
    StoredChainOf(chain, db.registry);
  }

  lemma VerdictLinks(p: Params, block: Block, parent: Block, utxo: Utxo, registry: Registry)
    requires BlockVerdict(p, block, parent, utxo, registry) == Ok(())
    ensures block.header.height == parent.header.height + 1 && block.header.prevHash == BlockHash(parent)
    ensures AllValid(block.txs, utxo)
  {
  }

  lemma AcceptedLinks(p: Params, chain: seq<Block>, db: Db, block: Block)
    requires Linked(chain) && Stores(db, chain, db.registry) && Judge(p, db, block) == Accepted
    ensures BlockVerdict(p, block, Last(chain), db.utxo, db.registry) == Ok(())
    ensures Linked(chain + [block])
  {
    VerdictLinks(p, block, Last(chain), db.utxo, db.registry);
    LinkedMore(chain, block);
  }

  lemma ReorgedMeans(p: Params, db: Db, block: Block)
    requires Judge(p, db, block) == Reorged
    ensures var tip := TipOrZero(db);
            var parentHeight := if tip.height > 0 then tip.height - 1 else 0;
            && block.header.height == tip.height && tip.height in db.blocksH && parentHeight in db.blocksH
            && p.digestValue(BlockHash(block)) < p.digestValue(tip.hash)
            && BlockVerdict(p, block, db.blocksH[parentHeight], db.utxo, db.registry) == Ok(())
  {
  }

  /** The genesis block is never replaced: a rival of it has no height to claim. */
  lemma RivalNeedsParent(p: Params, chain: seq<Block>, db: Db, block: Block)
    requires Linked(chain) && Stores(db, chain, db.registry) && Judge(p, db, block) == Reorged
    ensures |chain| > 1 && TipBlock(db) == Some(Last(chain)) && chain == Prefix(chain) + [Last(chain)]
    ensures p.digestValue(BlockHash(block)) < p.digestValue(BlockHash(Last(chain)))
    ensures BlockVerdict(p, block, chain[|chain| - 2], db.utxo, db.registry) == Ok(())
    ensures block.header.height == |chain| - 1 && Linked(Prefix(chain)) && Linked(Prefix(chain) + [block])
  {
    var parent := chain[if |chain| > 1 then |chain| - 2 else 0];
    ReorgedMeans(p, db, block);
    VerdictLinks(p, block, parent, db.utxo, db.registry);
    BesideTip(chain, block, parent);
  }

  lemma BesideTip(chain: seq<Block>, block: Block, parent: Block)
    requires Linked(chain) && parent == chain[if |chain| > 1 then |chain| - 2 else 0]
    requires block.header.height == |chain| - 1 == parent.header.height + 1
    requires block.header.prevHash == BlockHash(parent)
    ensures |chain| > 1 && chain == Prefix(chain) + [Last(chain)]
    ensures Linked(Prefix(chain)) && Linked(Prefix(chain) + [block])
  {
    SplitLast(chain);
    LinkedPrefix(chain);
    LinkedMore(Prefix(chain), block);
  }

  ghost predicate OnChain(chain: seq<Block>, block: Block) {
    exists i :: 0 <= i < |chain| && BlockHash(chain[i]) == BlockHash(block)
  }

  lemma KnownIs(chain: seq<Block>, db: Db, block: Block)
    requires Linked(chain) && Stores(db, chain, db.registry)
    ensures Known(db, BlockHash(block)) <==> OnChain(chain, block)
  {
    IndexInverse(chain);
    if Known(db, BlockHash(block)) {
      assert BlockHash(chain[db.blocksIdx[BlockHash(block)]]) == BlockHash(block);
    }
  }

  lemma RivalReorgs(p: Params, chain: seq<Block>, db: Db, block: Block)
    requires Linked(chain) && Stores(db, chain, db.registry) && block.header.height == |chain| - 1
    requires !OnChain(chain, block) && |chain| > 1
    requires p.digestValue(BlockHash(block)) < p.digestValue(BlockHash(Last(chain)))
    requires BlockVerdict(p, block, chain[|chain| - 2], db.utxo, db.registry) == Ok(())
    ensures Judge(p, db, block) == Reorged
  {
    KnownIs(chain, db, block);
    assert BlockHash(chain[|chain| - 1]) == BlockHash(Last(chain)) != BlockHash(block);
    VerdictLinks(p, block, chain[|chain| - 2], db.utxo, db.registry);
  }

  lemma ReorgedIff(p: Params, chain: seq<Block>, db: Db, block: Block)
    requires Linked(chain) && Stores(db, chain, db.registry)
    ensures Judge(p, db, block) == Reorged <==>
      && !OnChain(chain, block) && block.header.height == |chain| - 1 && |chain| > 1
      && p.digestValue(BlockHash(block)) < p.digestValue(BlockHash(Last(chain)))
      && BlockVerdict(p, block, chain[|chain| - 2], db.utxo, db.registry) == Ok(())
  {
    if Judge(p, db, block) == Reorged {
      KnownIs(chain, db, block);
      RivalNeedsParent(p, chain, db, block);
    } else if
      && !OnChain(chain, block) && block.header.height == |chain| - 1 && |chain| > 1
      && p.digestValue(BlockHash(block)) < p.digestValue(BlockHash(Last(chain)))
      && BlockVerdict(p, block, chain[|chain| - 2], db.utxo, db.registry) == Ok(())
    {
      RivalReorgs(p, chain, db, block);
    }
  }

  lemma AcceptedIff(p: Params, chain: seq<Block>, db: Db, block: Block)
    requires Linked(chain) && Stores(db, chain, db.registry)
    ensures Judge(p, db, block) == Accepted <==>
      && !OnChain(chain, block) && block.header.height == |chain|
      && BlockVerdict(p, block, Last(chain), db.utxo, db.registry) == Ok(())
  {
    KnownIs(chain, db, block);
  }

  lemma AlreadyStoredIff(p: Params, chain: seq<Block>, db: Db, block: Block)
    requires Linked(chain) && Stores(db, chain, db.registry)
    ensures Judge(p, db, block) == AlreadyStored <==> OnChain(chain, block)
  {
    KnownIs(chain, db, block);
    assert BlockHash(chain[|chain| - 1]) == BlockHash(Last(chain));
  }

  lemma OutOfReach(p: Params, chain: seq<Block>, db: Db, block: Block)
    requires Linked(chain) && Stores(db, chain, db.registry)
    ensures var judgement, height := Judge(p, db, block), block.header.height;
            && (judgement == Stale <==> !OnChain(chain, block) && height < |chain| - 1)
            && (judgement.AskForBlocks? <==> !OnChain(chain, block) && height > |chain|)
            && (judgement.AskForBlocks? ==> judgement.from == |chain|)
  {
    KnownIs(chain, db, block);
  }

  lemma FirstNotStored(chain: seq<Block>, db: Db)
    requires Stores(db, chain, db.registry)
    ensures |chain| !in db.blocksH && forall h: nat :: h < |chain| ==> h in db.blocksH
  {
  }

  /**
   A node that stores a chain knows the blocks on it. Any other block it judges by
   height: above the next height it asks for what is missing, which starts at the
   first height not stored; at the next height it accepts what is valid on the
   tip; at the tip's height a valid block of a lower hash on the tip's parent
   replaces the tip; below that it looks no further.
   */
  lemma JudgeByHeight(p: Params, chain: seq<Block>, db: Db, block: Block)
    requires Linked(chain) && Stores(db, chain, db.registry)
    ensures var judgement, height := Judge(p, db, block), block.header.height;
            && (judgement == AlreadyStored <==> OnChain(chain, block))
            && (judgement == AskForBlocks(|chain|) <==> !OnChain(chain, block) && height > |chain|)
            && (judgement.AskForBlocks? ==>
                  && judgement.from == |chain| && judgement.from !in db.blocksH
                  && forall h: nat :: h < judgement.from ==> h in db.blocksH)
            && (judgement == Accepted <==>
                  && !OnChain(chain, block) && height == |chain|
                  && BlockVerdict(p, block, Last(chain), db.utxo, db.registry) == Ok(()))
            && (judgement == Reorged <==>
                  && !OnChain(chain, block) && height == |chain| - 1 && |chain| > 1
                  && p.digestValue(BlockHash(block)) < p.digestValue(BlockHash(Last(chain)))
                  && BlockVerdict(p, block, chain[|chain| - 2], db.utxo, db.registry) == Ok(()))
            && (judgement == Stale <==> !OnChain(chain, block) && height < |chain| - 1)
  {
    AlreadyStoredIff(p, chain, db, block);
    OutOfReach(p, chain, db, block);
    AcceptedIff(p, chain, db, block);
    ReorgedIff(p, chain, db, block);
    FirstNotStored(chain, db);
  }

  /** Without a genesis block no block is taken. */
  lemma JudgeWithoutGenesis(p: Params, registry: Registry, block: Block)
    ensures Judge(p, EMPTY_DB.(registry := registry), block)
         == if block.header.height > 1 then AskForBlocks(1)
            else if block.header.height == 0 && p.digestValue(BlockHash(block)) >= p.digestValue(ZeroDigest)
            then KeptOurs
            else ParentMissing
  {
  }

  /** How it answers the blocks it does not take. */
  lemma JudgeRefuses(p: Params, chain: seq<Block>, db: Db, block: Block)
    requires Linked(chain) && Stores(db, chain, db.registry) && !OnChain(chain, block)
    ensures var judgement, parent := Judge(p, db, block), chain[if |chain| > 1 then |chain| - 2 else 0];
            var onTip := BlockVerdict(p, block, Last(chain), db.utxo, db.registry);
            var onParent := BlockVerdict(p, block, parent, db.utxo, db.registry);
            && (block.header.height == |chain| && onTip.Err? ==> judgement == Rejected(onTip.error))
            && (block.header.height == |chain| - 1 ==>
                  if p.digestValue(BlockHash(block)) >= p.digestValue(BlockHash(Last(chain))) then judgement == KeptOurs
                  else if block.header.prevHash != BlockHash(parent) then judgement == DifferentParent
                  else onParent.Err? ==> judgement == Rejected(onParent.error))
  {
    KnownIs(chain, db, block);
    assert BlockHash(chain[|chain| - 1]) == BlockHash(Last(chain)) != BlockHash(block);
  }

  /** When a block is stored exactly its transactions leave the pool; otherwise none does. */
  lemma PoolLoses(pool: Pool, judgement: Judgement, block: Block)
    requires forall h :: h in pool ==> TxHash(pool[h]) == h
    ensures PoolAfter(pool, judgement, block)
         == map h | h in pool && !((judgement == Accepted || judgement == Reorged) && pool[h] in block.txs) :: pool[h]
  {
    forall h | h in pool ensures h in TxHashes(block.txs) <==> pool[h] in block.txs {
      if pool[h] in block.txs {
        var i :| 0 <= i < |block.txs| && block.txs[i] == pool[h];
        assert TxHashes(block.txs)[i] == h;
      }
    }
  }

  lemma ReorgStores(chain: seq<Block>, oldBlock: Block, newBlock: Block, db: Db)
    requires NumberedFromZero(chain + [oldBlock]) && newBlock.header.height == |chain|
    requires Stores(db, chain + [oldBlock], db.registry)
    ensures Stores(Reorg(db, oldBlock, newBlock), chain + [newBlock], db.registry)
  {
    TipRecords(chain, oldBlock);
    DropsTip(chain, oldBlock, RollbackCoins(db, oldBlock), db.registry);
    ExtendOver(chain, RollbackBlock(db, oldBlock), newBlock, db.registry);
  }

  /** From `chain` to `next` by one of the three moves, with what `e` brings, and `db` stores the result. */
  ghost predicate Moves(p: Params, chain: seq<Block>, e: Event, next: seq<Block>, db: Db) {
    Linked(next) && Stores(db, next, db.registry) && ChainStep(p, chain, next) && Brings(chain, next, e)
  }

  lemma MovesUp(p: Params, chain: seq<Block>, db: Db, block: Block, e: Event, next: seq<Block>, after: Db)
    requires Stores(db, chain, db.registry) && Linked(next) && next == chain + [block]
    requires block.header.height == |chain| && block.txs == Brought(e) && after == Extend(db, block)
    ensures Moves(p, chain, e, next, after) && after.registry == db.registry
  {
    ExtendOver(chain, db, block, db.registry);
    assert Prefix(next) == chain;
  }

  lemma MovesDown(p: Params, chain: seq<Block>, db: Db, block: Block, e: Event, next: seq<Block>, after: Db)
    requires Linked(chain) && Stores(db, chain, db.registry) && |chain| > 1
    requires Linked(next) && next == Prefix(chain) + [block] && block.txs == Brought(e)
    requires p.digestValue(BlockHash(block)) < p.digestValue(BlockHash(Last(chain)))
    requires after == Reorg(db, Last(chain), block)
    ensures Moves(p, chain, e, next, after) && after.registry == db.registry
  {
    SplitLast(chain);
    assert next[|chain| - 1] == block;
    ReorgStores(Prefix(chain), Last(chain), block, db);
    assert Prefix(next) == Prefix(chain);
  }

  /** Every step, with whatever it brings, keeps the shape and moves the chain in one of three ways. */
  lemma StepShapes(config: Config, s: NodeState, chain: seq<Block>, e: Event, t: NodeState) returns (next: seq<Block>)
    requires Linked(chain) && Stores(s.db, chain, s.db.registry) && Step(config, s, e, t)
    ensures Moves(config.params, chain, e, next, t.db) && t.db.registry == s.db.registry
  {
    next := chain;
    match e
    case BlockArrives(block) =>
      var judgement := Judge(config.params, s.db, block);
      if judgement == Accepted {
        AcceptedLinks(config.params, chain, s.db, block);
        next := chain + [block];
        MovesUp(config.params, chain, s.db, block, e, next, t.db);
      } else if judgement == Reorged {
        RivalNeedsParent(config.params, chain, s.db, block);
        next := Prefix(chain) + [block];
        MovesDown(config.params, chain, s.db, block, e, next, t.db);
      }
    case TxArrives(tx) =>
    case SlotComes(now, picked) =>
      var slot := TickSlot(config, s.db, now);
      if slot.Some? {
        var block := BuildBlock(config, s.db.tip.value, slot.value, now, picked);
        LinkedMore(chain, block);
        next := chain + [block];
        MovesUp(config.params, chain, s.db, block, e, next, t.db);
      }
  }

  ghost predicate IsRun(config: Config, states: seq<NodeState>, events: seq<Event>) {
    && |states| == |events| + 1
    && forall i :: 0 <= i < |events| ==> Step(config, states[i], events[i], states[i + 1])
  }

  /** What holds at first and is kept by every step holds throughout. */
  lemma {:induction false} Throughout(holds: NodeState -> bool, states: seq<NodeState>, i: nat)
    requires i < |states| && holds(states[0])
    requires forall j, k :: 0 <= j < k <= i && k == j + 1 && holds(states[j]) ==> holds(states[k])
    ensures holds(states[i])
  {
    if i > 0 {
      Throughout(holds, states, i - 1);
    }
  }

  lemma ShapedStep(config: Config, s: NodeState, e: Event, t: NodeState)
    requires Shaped(s.db) && Step(config, s, e, t)
    ensures Shaped(t.db) && t.db.registry == s.db.registry
    ensures ChainStep(config.params, StoredChain(s.db), StoredChain(t.db))
    ensures Brings(StoredChain(s.db), StoredChain(t.db), e)
  {
    var next := StepShapes(config, s, StoredChain(s.db), e, t);
    ShapedBy(next, t.db);
  }

  lemma ShapedNext(config: Config, registry: Registry, states: seq<NodeState>, events: seq<Event>, j: nat, k: nat)
    requires IsRun(config, states, events) && j < k < |states| && k == j + 1
    requires Shaped(states[j].db) && states[j].db.registry == registry
    ensures Shaped(states[k].db) && states[k].db.registry == registry
    ensures ChainStep(config.params, StoredChain(states[j].db), StoredChain(states[k].db))
    ensures Brings(StoredChain(states[j].db), StoredChain(states[k].db), events[j])
  {
    var s, e, t := states[j], events[j], states[k];
    ShapedStep(config, s, e, t);
  }

  /**
   In every state of every run the stored blocks are numbered from the genesis
   block on and name their parents, and height map, hash index and tip record are
   those of that chain.
   */
  lemma RunIsShaped(config: Config, states: seq<NodeState>, events: seq<Event>, i: nat)
    requires IsRun(config, states, events) && Shaped(states[0].db) && i < |states|
    ensures Shaped(states[i].db) && states[i].db.registry == states[0].db.registry
  {
    var registry := states[0].db.registry;
    var holds := (s: NodeState) => Shaped(s.db) && s.db.registry == registry;
    forall j, k | 0 <= j < k <= i && k == j + 1 && holds(states[j]) ensures holds(states[k]) {
      ShapedNext(config, registry, states, events, j, k);
    }
    Throughout(holds, states, i);
  }

  /**
   From chain `a` to a later chain `b`: never shorter, everything below the old
   tip untouched, the genesis block the same, and at the old tip's height the
   same block or one with a lower hash.
   */
  ghost predicate Descends(p: Params, a: seq<Block>, b: seq<Block>) {
    && 0 < |a| <= |b|
    && Prefix(a) == b[..|a| - 1] && b[0] == a[0]
    && (b[|a| - 1] == Last(a) || p.digestValue(BlockHash(b[|a| - 1])) < p.digestValue(BlockHash(Last(a))))
  }

  lemma StepDescends(p: Params, a: seq<Block>, b: seq<Block>)
    requires a != [] && ChainStep(p, a, b)
    ensures Descends(p, a, b)
  {
    if b != [] && Prefix(b) == a {
      assert b[..|a| - 1] == Prefix(b)[..|a| - 1];
    }
  }

  lemma DescendsTransitive(p: Params, a: seq<Block>, b: seq<Block>, c: seq<Block>)
    requires Descends(p, a, b) && Descends(p, b, c)
    ensures Descends(p, a, c)
  {
    assert c[..|a| - 1] == c[..|b| - 1][..|a| - 1];
    assert b[..|a| - 1] == Prefix(b)[..|a| - 1];
    if |a| < |b| {
      assert Prefix(b)[|a| - 1] == c[|a| - 1];
    }
  }

  /** Finality: between any two moments of any run the chain descends. */
  lemma {:induction false} RunDescends(config: Config, states: seq<NodeState>, events: seq<Event>, i: nat, j: nat)
    requires IsRun(config, states, events) && Shaped(states[0].db) && i <= j < |states|
    ensures Descends(config.params, StoredChain(states[i].db), StoredChain(states[j].db))
    decreases j
  {
    if i == j {
      RunIsShaped(config, states, events, i);
    } else {
      var k := j - 1;
      RunDescends(config, states, events, i, k);
      RunIsShaped(config, states, events, k);
      ShapedNext(config, states[0].db.registry, states, events, k, j);
      OneMoreDescends(config.params, states[i].db, states[k].db, states[j].db);
    }
  }

  lemma OneMoreDescends(p: Params, a: Db, b: Db, c: Db)
    requires Descends(p, StoredChain(a), StoredChain(b)) && ChainStep(p, StoredChain(b), StoredChain(c))
    ensures Descends(p, StoredChain(a), StoredChain(c))
  {
    StepDescends(p, StoredChain(b), StoredChain(c));
    DescendsTransitive(p, StoredChain(a), StoredChain(b), StoredChain(c));
  }

  // ── When the coins are the replay, in any run ──────────────────────────────

  /** The state is that of the stored chain: its coins and records are the replay of the blocks. */
  ghost predicate Replays(registry: Registry, db: Db) {
    Linked(StoredChain(db)) && db == DbOf(StoredChain(db), registry)
  }

  /** A block that replaces the tip. */
  predicate Replaces(config: Config, s: NodeState, e: Event) {
    e.BlockArrives? && Judge(config.params, s.db, e.block) == Reorged
  }

  /** What undoing the tip loses of the coins below it. */
  ghost function TipLoses(db: Db): set<TxOutRef> {
    var chain := StoredChain(db);
    if chain == [] then {} else Lost(Replay(Prefix(chain)).utxo, Last(chain).txs)
  }

  ghost predicate MakesUp(config: Config, s: NodeState, e: Event) {
    Replaces(config, s, e) ==> AllMadeUp(TipLoses(s.db), e.block)
  }

  lemma TipReplaced(parents: seq<Block>, tip: Block, chain: seq<Block>, block: Block, db: Db, registry: Registry)
    requires Linked(chain) && Linked(parents + [block])
    requires chain == parents + [tip] && db == DbOf(chain, registry)
    ensures var after := Reorg(db, tip, block);
            && StoredChain(after) == parents + [block]
            && (after == DbOf(parents + [block], registry) <==> AllMadeUp(Lost(Replay(parents).utxo, tip.txs), block))
  {
    TipRecords(parents, block);
    ReorgStores(parents, tip, block, db);
    ShapedBy(parents + [block], Reorg(db, tip, block));
    ReorgStored(parents, tip, block, registry);
  }

  /** What a reorg leaves is the replay of the blocks it stores if and only if the rival makes up for the loss. */
  lemma ReorgedReplays(p: Params, registry: Registry, chain: seq<Block>, db: Db, block: Block)
    requires Linked(chain) && db == DbOf(chain, registry) && Judge(p, db, block) == Reorged
    ensures |chain| > 1 && Linked(Prefix(chain) + [block])
    ensures var after := DbAfter(db, Reorged, block);
            && StoredChain(after) == Prefix(chain) + [block]
            && (after == DbOf(Prefix(chain) + [block], registry)
                <==> AllMadeUp(Lost(Replay(Prefix(chain)).utxo, Last(chain).txs), block))
  {
    RivalNeedsParent(p, chain, db, block);
    assert DbAfter(db, Reorged, block) == Reorg(db, Last(chain), block);
    TipReplaced(Prefix(chain), Last(chain), chain, block, db, registry);
  }

  /** Only a reorg can take the coins away from the replay, and only one that does not make up for what it loses. */
  lemma StepReplays(config: Config, registry: Registry, s: NodeState, e: Event, t: NodeState)
    requires Replays(registry, s.db) && Step(config, s, e, t)
    ensures Replays(registry, t.db) <==> MakesUp(config, s, e)
  {
    var chain := StoredChain(s.db);
    if Replaces(config, s, e) {
      ReorgedReplays(config.params, registry, chain, s.db, e.block);
    } else if !StoresBlock(config, s, e) {
      StoresNothing(config, s, e, t);
    } else if e.BlockArrives? {
      AcceptedLinks(config.params, chain, s.db, e.block);
      ReplaysMore(registry, chain, e.block, t.db);
    } else {
      var block := BuildBlock(config, s.db.tip.value, TickSlot(config, s.db, e.now).value, e.now, e.picked);
      LinkedMore(chain, block);
      ReplaysMore(registry, chain, block, t.db);
    }
  }

  lemma ReplaysMore(registry: Registry, chain: seq<Block>, block: Block, db: Db)
    requires Linked(chain + [block]) && block.header.height == |chain|
    requires db == Extend(DbOf(chain, registry), block)
    ensures Replays(registry, db)
  {
    ExtendStored(chain, block, registry);
    StoredChainOf(chain + [block], registry);
  }

  lemma ReplaysNext(config: Config, registry: Registry, states: seq<NodeState>, events: seq<Event>, j: nat, k: nat)
    requires IsRun(config, states, events) && j < k < |states| && k == j + 1 && Replays(registry, states[j].db)
    ensures Replays(registry, states[k].db) <==> MakesUp(config, states[j], events[j])
  {
    var s, e, t := states[j], events[j], states[k];
    StepReplays(config, registry, s, e, t);
  }

  lemma ReplaysUpTo(config: Config, registry: Registry, states: seq<NodeState>, events: seq<Event>, i: nat)
    requires IsRun(config, states, events) && Replays(registry, states[0].db) && i < |states|
    requires forall j :: 0 <= j < i ==> MakesUp(config, states[j], events[j])
    ensures Replays(registry, states[i].db)
  {
    var holds := (s: NodeState) => Replays(registry, s.db);
    forall j, k | 0 <= j < k <= i && k == j + 1 && holds(states[j]) ensures holds(states[k]) {
      ReplaysNext(config, registry, states, events, j, k);
    }
    Throughout(holds, states, i);
  }

  /**
   Exactly when every state of a run is the replay of its stored blocks: each
   reorg makes up for what it loses. Nothing else is asked: not that blocks are
   valid, that sums do not wrap around, or that rivals leave the old tip alone.
   */
  lemma RunReplays(
    config: Config, registry: Registry, states: seq<NodeState>, events: seq<Event>, n: nat)
    requires IsRun(config, states, events) && Replays(registry, states[0].db) && n < |states|
    ensures (forall i :: 0 <= i <= n ==> Replays(registry, states[i].db))
            <==> forall i :: 0 <= i < n ==> MakesUp(config, states[i], events[i])
  {
    if forall i :: 0 <= i < n ==> MakesUp(config, states[i], events[i]) {
      forall i | 0 <= i <= n ensures Replays(registry, states[i].db) {
        ReplaysUpTo(config, registry, states, events, i);
      }
    }
    if forall i :: 0 <= i <= n ==> Replays(registry, states[i].db) {
      forall i | 0 <= i < n ensures MakesUp(config, states[i], events[i]) {
        ReplaysNext(config, registry, states, events, i, i + 1);
      }
    }
  }

  /** What is stored makes outputs that are new to the coins it is applied to. */
  ghost predicate StoresFresh(config: Config, s: NodeState, e: Event) {
    var chain := StoredChain(s.db);
    if Replaces(config, s, e) then chain != [] && FreshOuts(Replay(Prefix(chain)).utxo, Brought(e))
    else StoresBlock(config, s, e) ==> FreshOuts(s.db.utxo, Brought(e))
  }

  /** The state is that of the stored chain, and undoing its tip would lose nothing. */
  ghost predicate Undoable(registry: Registry, db: Db) {
    Replays(registry, db) && TipLoses(db) == {}
  }

  lemma UndoableMore(registry: Registry, chain: seq<Block>, block: Block, db: Db)
    requires Replays(registry, db) && StoredChain(db) == chain + [block] && FreshOuts(Replay(chain).utxo, block.txs)
    ensures Undoable(registry, db)
  {
    assert Prefix(chain + [block]) == chain && Last(chain + [block]) == block;
    FreshLosesNothing(Replay(chain).utxo, block.txs);
  }

  lemma FreshStep(config: Config, registry: Registry, s: NodeState, e: Event, t: NodeState)
    requires Undoable(registry, s.db) && Step(config, s, e, t) && StoresFresh(config, s, e)
    ensures Undoable(registry, t.db)
  {
    var chain := StoredChain(s.db);
    StepReplays(config, registry, s, e, t);
    if Replaces(config, s, e) {
      ReorgedReplays(config.params, registry, chain, s.db, e.block);
      UndoableMore(registry, Prefix(chain), e.block, t.db);
    } else if !StoresBlock(config, s, e) {
      StoresNothing(config, s, e, t);
    } else {
      var next := StepShapes(config, s, chain, e, t);
      ShapedBy(next, t.db);
      StoresOnTop(config, s, chain, e, t, next);
      UndoableMore(registry, chain, Last(next), t.db);
    }
  }

  lemma StoresOnTop(config: Config, s: NodeState, chain: seq<Block>, e: Event, t: NodeState, next: seq<Block>)
    requires Linked(chain) && Stores(s.db, chain, s.db.registry) && Step(config, s, e, t)
    requires StoresBlock(config, s, e) && !Replaces(config, s, e)
    requires Moves(config.params, chain, e, next, t.db)
    ensures next == chain + [Last(next)] && Last(next).txs == Brought(e)
  {
    if e.BlockArrives? {
      AcceptedLinks(config.params, chain, s.db, e.block);
    }
    assert |chain| in t.db.blocksH;
    assert |next| == |chain| + 1;
    SplitLast(next);
  }

  /** So a run in which every block stored makes new outputs only is the replay of its blocks throughout. */
  lemma FreshRunReplays(config: Config, registry: Registry, states: seq<NodeState>, events: seq<Event>, i: nat)
    requires IsRun(config, states, events) && Undoable(registry, states[0].db) && i < |states|
    requires forall j :: 0 <= j < |events| ==> StoresFresh(config, states[j], events[j])
    ensures Undoable(registry, states[i].db)
  {
    var holds := (s: NodeState) => Undoable(registry, s.db);
    forall j, k | 0 <= j < k <= i && k == j + 1 && holds(states[j]) ensures holds(states[k]) {
      var s, e, t := states[j], events[j], states[k];
      FreshStep(config, registry, s, e, t);
    }
    Throughout(holds, states, i);
  }

  // ── One block that is taken carefully ──────────────────────────────────────

  lemma AcceptedExtends(p: Params, registry: Registry, chain: seq<Block>, block: Block)
    requires GoodChain(p, registry, chain)
    requires Judge(p, DbOf(chain, registry), block) == Accepted && NoOverflows(block.txs)
    ensures AcceptedOn(p, registry, chain, block)
  {
    GoodChainLinks(p, registry, chain);
    AcceptedLinks(p, chain, DbOf(chain, registry), block);
  }

  /** Replacing the tip: the rival is valid on the parent, so the result is the chain that never saw the old tip. */
  lemma ReorgedExtendsParent(p: Params, registry: Registry, chain: seq<Block>, block: Block)
    requires GoodChain(p, registry, chain)
    requires Judge(p, DbOf(chain, registry), block) == Reorged && NoOverflows(block.txs)
    requires TxsIns(block.txs) !! TxsOuts(Last(chain).txs)
    ensures |chain| > 1 && AcceptedOn(p, registry, Prefix(chain), block)
    ensures p.digestValue(BlockHash(block)) < p.digestValue(BlockHash(Last(chain)))
    ensures TipBlock(DbOf(chain, registry)) == Some(Last(chain))
  {
    GoodChainLinks(p, registry, chain);
    RivalNeedsParent(p, chain, DbOf(chain, registry), block);
    var init, last := Prefix(chain), Last(chain);
    AcceptedIsFresh(p, registry, init, last);
    AcceptedFacts(p, registry, init, last);
    SplitLast(chain);
    RivalOnParent(last.header.height, Replay(init), last.txs, block.txs);
    assert Last(init) == chain[|chain| - 2];
  }

  /** On a good chain nothing is ever lost: a reorg leaves the replay of what it stores, if not a valid chain. */
  lemma GoodLosesNothing(p: Params, registry: Registry, chain: seq<Block>, block: Block)
    requires GoodChain(p, registry, chain) && Judge(p, DbOf(chain, registry), block) == Reorged
    ensures |chain| > 1 && Lost(Replay(Prefix(chain)).utxo, Last(chain).txs) == {}
    ensures DbAfter(DbOf(chain, registry), Reorged, block) == DbOf(Prefix(chain) + [block], registry)
  {
    GoodChainLinks(p, registry, chain);
    ReorgedReplays(p, registry, chain, DbOf(chain, registry), block);
    AcceptedLosesNothing(p, registry, Prefix(chain), Last(chain));
  }

  /** A block that passed above the tip repeats nothing of the chain and spends nothing of its own. */
  lemma PassedIsNew(p: Params, registry: Registry, chain: seq<Block>, txs: seq<Transaction>)
    requires GoodChain(p, registry, chain) && AllValid(txs, Replay(chain).utxo)
    ensures TxsOuts(txs) !! Created(chain) && NoInnerSpend(txs)
  {
    CoinsOfGoodChain(p, registry, chain);
    ValidInputsExist(txs, Replay(chain).utxo);
    forall ref | ref in TxsOuts(txs) ensures ref !in Created(chain) {
      TxsOutsMember(txs, ref);
      CreatedMember(chain, ref);
      forall i | 0 <= i < |chain| ensures ref.txHash.tx !in chain[i].txs {
        ValidIsUnconfirmed(p, registry, chain, ref.txHash.tx, i);
      }
    }
  }

  /** A reorg mints exactly what the rival takes of the old tip's outputs; nothing if and only if it takes none. */
  lemma ReorgMints(p: Params, registry: Registry, chain: seq<Block>, block: Block)
    requires GoodChain(p, registry, chain) && Judge(p, DbOf(chain, registry), block) == Reorged
    requires NoOverflows(block.txs) && InputsDistinct(block.txs)
    ensures |chain| > 1
    ensures var parent, tip, above := Replay(Prefix(chain)), Last(chain), Replay(chain).utxo;
            var after := DbAfter(DbOf(chain, registry), Reorged, block).utxo;
            && Value(after) + BlockIn(block.txs, above)
               == Value(parent.utxo) + BlockOut(block.txs) + Value(Taken(|chain| - 1, parent, tip.txs, block.txs))
            && (Value(after) + BlockIn(block.txs, above) == Value(parent.utxo) + BlockOut(block.txs)
                <==> TxsIns(block.txs) !! TxsOuts(tip.txs))
  {
    var init, tip := Prefix(chain), Last(chain);
    GoodChainLinks(p, registry, chain);
    RivalNeedsParent(p, chain, DbOf(chain, registry), block);
    GoodLosesNothing(p, registry, chain, block);
    VerdictLinks(p, block, chain[|chain| - 2], Replay(chain).utxo, registry);
    PassedIsNew(p, registry, chain, block.txs);
    AcceptedIsFresh(p, registry, init, tip);
    AcceptedFacts(p, registry, init, tip);
    CoinsOfGoodChain(p, registry, init);
    SplitLast(chain);
    LastHeight(p, registry, chain);
    assert Prefix(init + [block]) == init && Last(init + [block]) == block;
    RivalMints(|chain| - 1, Replay(init), tip.txs, block.txs);
  }

  lemma HashListed(txs: seq<Transaction>, tx: Transaction)
    ensures tx in txs ==> TxHash(tx) in TxHashes(txs)
  {
    if tx in txs {
      var k :| 0 <= k < |txs| && txs[k] == tx;
      assert TxHashes(txs)[k] == TxHash(tx);
    }
  }

  lemma RemovedStayUnconfirmed(pool: Pool, a: seq<Block>, b: seq<Block>, block: Block)
    requires Unconfirmed(pool, a) && forall h :: h in pool ==> TxHash(pool[h]) == h
    requires b != [] && Last(b) == block && Prefix(b) <= a
    ensures Unconfirmed(RemoveAll(pool, TxHashes(block.txs)), b)
  {
    var less := RemoveAll(pool, TxHashes(block.txs));
    forall h, i | h in less && 0 <= i < |b| ensures less[h] !in b[i].txs {
      if i < |b| - 1 {
        assert b[i] == a[i];
      } else {
        HashListed(block.txs, less[h]);
      }
    }
  }

  lemma BlockStep(config: Config, registry: Registry, s: NodeState, chain: seq<Block>, block: Block, t: NodeState)
    returns (next: seq<Block>)
    requires Inv(config.params, registry, s, chain)
    requires Step(config, s, BlockArrives(block), t) && Careful(config, s, BlockArrives(block))
    ensures Inv(config.params, registry, t, next) && ChainStep(config.params, chain, next)
    ensures next == chain || Last(next) == block
  {
    var p := config.params;
    match Judge(p, s.db, block)
    case Accepted =>
      AcceptedExtends(p, registry, chain, block);
      next := chain + [block];
      GoodExtended(p, registry, chain, block);
      ExtendStored(chain, block, registry);
      RemovedStayUnconfirmed(s.pool, chain, next, block);
    case Reorged =>
      var parents := Prefix(chain);
      GoodLosesNothing(p, registry, chain, block);
      ReorgedExtendsParent(p, registry, chain, block);
      next := parents + [block];
      GoodExtended(p, registry, parents, block);
      RemovedStayUnconfirmed(s.pool, chain, next, block);
    case _ =>
      next := chain;
  }

  // ── One step ───────────────────────────────────────────────────────────────

  /** All that an offer may bring into the pool is the transaction offered, if it is valid. */
  lemma TxBrings(config: Config, s: NodeState, tx: Transaction, t: NodeState)
    requires Step(config, s, TxArrives(tx), t)
    ensures t.db == s.db
    ensures forall h :: h in t.pool ==>
      (h in s.pool && t.pool[h] == s.pool[h]) || (h == TxHash(tx) && t.pool[h] == tx && ValidTx(tx, s.db.utxo))
  {
    var r :| AddStep(s.pool, config.mempoolMaxSize, tx, s.db.utxo, t.pool, r);
    AddMeans(s.pool, config.mempoolMaxSize, tx, s.db.utxo, t.pool, r);
  }

  lemma TxStep(config: Config, registry: Registry, s: NodeState, chain: seq<Block>, tx: Transaction, t: NodeState)
    requires Inv(config.params, registry, s, chain) && Step(config, s, TxArrives(tx), t)
    ensures Inv(config.params, registry, t, chain)
  {
    TxBrings(config, s, tx, t);
    if ValidTx(tx, s.db.utxo) {
      NotOnChain(config.params, registry, chain, tx);
    }
    MoreUnconfirmed(s.pool, t.pool, tx, chain);
  }

  lemma NotOnChain(p: Params, registry: Registry, chain: seq<Block>, tx: Transaction)
    requires GoodChain(p, registry, chain) && ValidTx(tx, Replay(chain).utxo)
    ensures forall i :: 0 <= i < |chain| ==> tx !in chain[i].txs
  {
    forall i | 0 <= i < |chain| ensures tx !in chain[i].txs {
      ValidIsUnconfirmed(p, registry, chain, tx, i);
    }
  }

  lemma MoreUnconfirmed(pool: Pool, after: Pool, tx: Transaction, chain: seq<Block>)
    requires Unconfirmed(pool, chain)
    requires forall h :: h in after ==>
      (h in pool && after[h] == pool[h]) || (after[h] == tx && forall i :: 0 <= i < |chain| ==> tx !in chain[i].txs)
    ensures Unconfirmed(after, chain)
  {
  }

  lemma AddMeans(pool: Pool, maxSize: nat, tx: Transaction, utxo: Utxo, after: Pool, r: Result<AddedToPool, PoolError>)
    requires AddStep(pool, maxSize, tx, utxo, after, r)
    ensures forall h :: h in after ==>
      (h in pool && after[h] == pool[h]) || (h == TxHash(tx) && after[h] == tx && ValidTx(tx, utxo))
  {
  }

  lemma SlotStep(
    config: Config, registry: Registry, s: NodeState, chain: seq<Block>,
    now: I64, picked: seq<Transaction>, t: NodeState)
    returns (next: seq<Block>)
    requires KeyedByAddress(registry) && KeyMatches(config)
    requires Inv(config.params, registry, s, chain)
    requires Step(config, s, SlotComes(now, picked), t) && Careful(config, s, SlotComes(now, picked))
    ensures Inv(config.params, registry, t, next) && ChainStep(config.params, chain, next)
    ensures next == chain || (Prefix(next) == chain && Last(next).txs == picked)
  {
    var slot := TickSlot(config, s.db, now);
    if slot.None? {
      next := chain;
    } else {
      var p := config.params;
      var block := BuildBlock(config, s.db.tip.value, slot.value, now, picked);
      Proposals.ProposedBlockPasses(config, registry, chain, now, picked, block);
      assert AcceptedOn(p, registry, chain, block);
      next := chain + [block];
      GoodExtended(p, registry, chain, block);
      ExtendStored(chain, block, registry);
      RemovedStayUnconfirmed(s.pool, chain, next, block);
    }
  }

  /** Every step keeps the invariant and moves the chain in one of three ways. */
  lemma StepKeeps(config: Config, registry: Registry, s: NodeState, chain: seq<Block>, e: Event, t: NodeState)
    returns (next: seq<Block>)
    requires KeyedByAddress(registry) && KeyMatches(config)
    requires Inv(config.params, registry, s, chain) && Step(config, s, e, t) && Careful(config, s, e)
    ensures Inv(config.params, registry, t, next)
    ensures ChainStep(config.params, chain, next) && Brings(chain, next, e)
  {
    match e
    case BlockArrives(block) =>
      next := BlockStep(config, registry, s, chain, block, t);
    case TxArrives(tx) =>
      TxStep(config, registry, s, chain, tx, t);
      next := chain;
    case SlotComes(now, picked) =>
      next := SlotStep(config, registry, s, chain, now, picked, t);
  }

  // ── Careful runs ───────────────────────────────────────────────────────────

  ghost predicate CarefulRun(config: Config, states: seq<NodeState>, events: seq<Event>) {
    && IsRun(config, states, events)
    && forall i :: 0 <= i < |events| ==> Careful(config, states[i], events[i])
  }

  /** In a state that satisfies the invariant the chain can be read off the height map. */
  lemma ChainIsStored(p: Params, registry: Registry, s: NodeState, chain: seq<Block>)
    requires Inv(p, registry, s, chain)
    ensures chain == StoredChain(s.db)
  {
    StoredChainOf(chain, registry);
  }

  ghost predicate Sound(p: Params, registry: Registry, s: NodeState) {
    Inv(p, registry, s, StoredChain(s.db))
  }

  /**
   Every state of a careful run is the stored state of a valid chain, and nothing
   pooled is on that chain.
   */
  lemma RunIsSound(config: Config, registry: Registry, states: seq<NodeState>, events: seq<Event>, i: nat)
    requires KeyedByAddress(registry) && KeyMatches(config)
    requires CarefulRun(config, states, events) && Sound(config.params, registry, states[0]) && i < |states|
    ensures Sound(config.params, registry, states[i])
  {
    var holds := (s: NodeState) => Sound(config.params, registry, s);
    forall j, k | 0 <= j < k <= i && k == j + 1 && holds(states[j]) ensures holds(states[k]) {
      SoundNext(config, registry, states, events, j, k);
    }
    Throughout(holds, states, i);
  }

  lemma SoundNext(config: Config, registry: Registry, states: seq<NodeState>, events: seq<Event>, j: nat, k: nat)
    requires KeyedByAddress(registry) && KeyMatches(config)
    requires CarefulRun(config, states, events) && j < k < |states| && k == j + 1
    requires Sound(config.params, registry, states[j])
    ensures Sound(config.params, registry, states[k])
  {
    var s, e, t := states[j], events[j], states[k];
    SoundStep(config, registry, s, e, t);
  }

  lemma SoundReplays(p: Params, registry: Registry, s: NodeState)
    requires Sound(p, registry, s)
    ensures Replays(registry, s.db) && Shaped(s.db)
  {
    GoodChainLinks(p, registry, StoredChain(s.db));
  }

  lemma SoundStep(config: Config, registry: Registry, s: NodeState, e: Event, t: NodeState)
    requires KeyedByAddress(registry) && KeyMatches(config)
    requires Sound(config.params, registry, s) && Step(config, s, e, t) && Careful(config, s, e)
    ensures Sound(config.params, registry, t)
  {
    var next := StepKeeps(config, registry, s, StoredChain(s.db), e, t);
    ChainIsStored(config.params, registry, t, next);
  }

  // ── Value over whole runs ──────────────────────────────────────────────────

  /** Every block that gets stored has distinct inputs; blocks turned away may be anything. */
  ghost predicate StoresDistinct(config: Config, states: seq<NodeState>, events: seq<Event>) {
    |states| == |events| + 1 &&
    forall i :: 0 <= i < |events| && StoresBlock(config, states[i], events[i]) ==> InputsDistinct(Brought(events[i]))
  }

  lemma {:induction false} RunStaysDistinct(config: Config, states: seq<NodeState>, events: seq<Event>, i: nat)
    requires IsRun(config, states, events) && Shaped(states[0].db) && i < |states|
    requires StoresDistinct(config, states, events) && DistinctInputsFrom(StoredChain(states[0].db), 1)
    ensures DistinctInputsFrom(StoredChain(states[i].db), 1)
  {
    if i > 0 {
      var k := i - 1;
      RunStaysDistinct(config, states, events, k);
      if StoresBlock(config, states[k], events[k]) {
        RunIsShaped(config, states, events, k);
        ShapedNext(config, states[0].db.registry, states, events, k, i);
        DistinctStep(StoredChain(states[k].db), StoredChain(states[i].db), events[k]);
      } else {
        StoresNothing(config, states[k], events[k], states[i]);
      }
    }
  }

  lemma DistinctStep(chain: seq<Block>, next: seq<Block>, e: Event)
    requires DistinctInputsFrom(chain, 1) && Brings(chain, next, e) && InputsDistinct(Brought(e))
    ensures DistinctInputsFrom(next, 1)
  {
    if next != chain {
      forall i | 1 <= i < |next| ensures InputsDistinct(next[i].txs) {
        assert i < |next| - 1 ==> Prefix(next)[i] == chain[i];
      }
    }
  }

  lemma SoundValue(p: Params, registry: Registry, s: NodeState, genesis: seq<Block>)
    requires Sound(p, registry, s) && DistinctInputsFrom(StoredChain(s.db), 1)
    requires 1 <= |StoredChain(s.db)| && genesis == StoredChain(s.db)[..1]
    ensures Value(s.db.utxo) <= Value(Replay(genesis).utxo)
  {
    ValueNeverRises(p, registry, StoredChain(s.db), 1);
  }

  lemma SameGenesis(p: Params, a: seq<Block>, b: seq<Block>)
    requires Descends(p, a, b)
    ensures a[..1] == b[..1]
  {
  }

  lemma RunValue(config: Config, registry: Registry, states: seq<NodeState>, events: seq<Event>, i: nat)
    requires KeyedByAddress(registry) && KeyMatches(config)
    requires CarefulRun(config, states, events) && Sound(config.params, registry, states[0]) && i < |states|
    requires DistinctInputsFrom(StoredChain(states[i].db), 1)
    ensures Value(states[i].db.utxo) <= Value(Replay(StoredChain(states[0].db)[..1]).utxo)
  {
    SoundReplays(config.params, registry, states[0]);
    RunDescends(config, states, events, 0, i);
    SameGenesis(config.params, StoredChain(states[0].db), StoredChain(states[i].db));
    RunIsSound(config, registry, states, events, i);
    SoundValue(config.params, registry, states[i], StoredChain(states[0].db)[..1]);
  }

  /** Every owner's balance is within the total, and the balances of all owners make up the total. */
  ghost predicate BalancesShare(utxo: Utxo) {
    && (forall owner :: Balance(utxo, owner) <= Value(utxo))
    && (forall owners: set<Address> :: (forall ref :: ref in utxo ==> utxo[ref].address in owners) ==>
          BalanceSum(utxo, owners) == Value(utxo))
  }

  lemma BalancesAlwaysShare(utxo: Utxo)
    ensures BalancesShare(utxo)
  {
    forall owner ensures Balance(utxo, owner) <= Value(utxo) {
      BalanceWithin(utxo, owner);
    }
    forall owners: set<Address> | forall ref :: ref in utxo ==> utxo[ref].address in owners
      ensures BalanceSum(utxo, owners) == Value(utxo)
    {
      BalancesAddUp(utxo, owners);
    }
  }

  /**
   While the blocks on the chain have distinct inputs the unspent outputs are
   never worth more than the genesis block's, reorgs included. With a genesis
   total below 2^64 no balance ever saturates, and the balances of all owners add
   up to the total.
   */
  lemma RunConserves(config: Config, registry: Registry, states: seq<NodeState>, events: seq<Event>, i: nat)
    requires KeyedByAddress(registry) && KeyMatches(config)
    requires CarefulRun(config, states, events) && Sound(config.params, registry, states[0]) && i < |states|
    requires DistinctInputsFrom(StoredChain(states[i].db), 1)
    ensures var genesis, total := Value(Replay(StoredChain(states[0].db)[..1]).utxo), Value(states[i].db.utxo);
            && total <= genesis && BalancesShare(states[i].db.utxo)
            && (genesis <= U64_MAX ==>
                  forall owner :: Min(Balance(states[i].db.utxo, owner), U64_MAX) == Balance(states[i].db.utxo, owner))
  {
    RunValue(config, registry, states, events, i);
    BalancesAlwaysShare(states[i].db.utxo);
  }

  // ── Durability over whole runs ─────────────────────────────────────────────

  /** The durable writes of a step, in order. */
  function Writes(config: Config, s: NodeState, e: Event): seq<Db> {
    match e
    case BlockArrives(block) => WritesAfter(s.db, Judge(config.params, s.db, block), block)
    case TxArrives(tx) => []
    case SlotComes(now, picked) =>
      if ClockOk(config.params, now) && TickSlot(config, s.db, now).Some? && s.db.tip.Some?
      then
        ExtendWrites(s.db, BuildBlock(config, s.db.tip.value, TickSlot(config, s.db, now).value, now, picked))
      else []
  }

  ghost predicate LosesNothing(config: Config, s: NodeState, e: Event) {
    Replaces(config, s, e) ==> TipLoses(s.db) == {}
  }

  lemma TipCrash(parents: seq<Block>, tip: Block, chain: seq<Block>, block: Block, db: Db, registry: Registry)
    requires parents != [] && Linked(chain) && Linked(parents + [block])
    requires chain == parents + [tip] && db == DbOf(chain, registry)
    ensures AllConsistent(registry, ReorgWrites(db, tip, block)) <==> Lost(Replay(parents).utxo, tip.txs) == {}
  {
    ReorgCrash(parents, tip, block, registry);
  }

  lemma ReorgIsDurable(p: Params, registry: Registry, chain: seq<Block>, db: Db, block: Block)
    requires Linked(chain) && db == DbOf(chain, registry) && Judge(p, db, block) == Reorged
    ensures |chain| > 1
    ensures var writes := WritesAfter(db, Reorged, block);
            AllConsistent(registry, writes) <==> Lost(Replay(Prefix(chain)).utxo, Last(chain).txs) == {}
  {
    RivalNeedsParent(p, chain, db, block);
    Consequences(db, map[], Reorged, block);
    TipCrash(Prefix(chain), Last(chain), chain, block, db, registry);
  }

  /**
   After every prefix of the writes of a step the coins are those of the stored
   chain, with or without its tip, exactly unless the step is a reorg that loses
   something; whether the rival makes up for it comes too late for this.
   */
  lemma StepIsDurable(config: Config, registry: Registry, s: NodeState, e: Event, t: NodeState)
    requires Replays(registry, s.db) && Step(config, s, e, t)
    ensures AllConsistent(registry, Writes(config, s, e)) <==> LosesNothing(config, s, e)
  {
    var chain := StoredChain(s.db);
    match e
    case BlockArrives(block) =>
      var judgement := Judge(config.params, s.db, block);
      if judgement == Accepted {
        AcceptedLinks(config.params, chain, s.db, block);
        ExtendCrash(chain, block, registry);
      } else if judgement == Reorged {
        ReorgIsDurable(config.params, registry, chain, s.db, block);
      }
    case TxArrives(tx) =>
    case SlotComes(now, picked) =>
      if TickSlot(config, s.db, now).Some? {
        var block := BuildBlock(config, s.db.tip.value, TickSlot(config, s.db, now).value, now, picked);
        LinkedMore(chain, block);
        ExtendCrash(chain, block, registry);
      }
  }

  lemma DurableNext(config: Config, registry: Registry, states: seq<NodeState>, events: seq<Event>, j: nat)
    requires IsRun(config, states, events) && j < |events| && Replays(registry, states[j].db)
    ensures AllConsistent(registry, Writes(config, states[j], events[j]))
            <==> LosesNothing(config, states[j], events[j])
  {
    var s, e, t := states[j], events[j], states[j + 1];
    StepIsDurable(config, registry, s, e, t);
  }

  lemma LosslessReplays(config: Config, registry: Registry, states: seq<NodeState>, events: seq<Event>, i: nat)
    requires IsRun(config, states, events) && Replays(registry, states[0].db) && i < |states|
    requires forall j :: 0 <= j < i ==> LosesNothing(config, states[j], events[j])
    ensures Replays(registry, states[i].db)
  {
    forall j | 0 <= j < i ensures MakesUp(config, states[j], events[j]) {
      assert LosesNothing(config, states[j], events[j]);
    }
    ReplaysUpTo(config, registry, states, events, i);
  }

  /** Two properties agree wherever the second has held before: so one holds of all if and only if the other does. */
  lemma {:induction false} BothThroughout(good: nat -> bool, safe: nat -> bool, n: nat)
    requires forall i: nat :: i < n && (forall j: nat :: j < i ==> safe(j)) ==> (good(i) <==> safe(i))
    ensures (forall i: nat :: i < n ==> good(i)) <==> forall i: nat :: i < n ==> safe(i)
  {
    if n > 0 {
      BothThroughout(good, safe, n - 1);
    }
  }

  /** Every durable state of a run is consistent if and only if no reorg of the run loses anything. */
  lemma RunIsDurable(config: Config, registry: Registry, states: seq<NodeState>, events: seq<Event>, n: nat)
    requires IsRun(config, states, events) && Replays(registry, states[0].db) && n < |states|
    ensures (forall i: nat :: i < n ==> AllConsistent(registry, Writes(config, states[i], events[i])))
            <==> forall i: nat :: i < n ==> LosesNothing(config, states[i], events[i])
  {
    var good := (i: nat) => i < n && AllConsistent(registry, Writes(config, states[i], events[i]));
    var safe := (i: nat) => i < n && LosesNothing(config, states[i], events[i]);
    forall i: nat | i < n && forall j: nat :: j < i ==> safe(j) ensures good(i) <==> safe(i) {
      forall j: nat | j < i ensures LosesNothing(config, states[j], events[j]) {
        assert safe(j);
      }
      LosslessReplays(config, registry, states, events, i);
      DurableNext(config, registry, states, events, i);
    }
    BothThroughout(good, safe, n);
    assert forall i: nat :: i < n ==> (good(i) <==> AllConsistent(registry, Writes(config, states[i], events[i])));
    assert forall i: nat :: i < n ==> (safe(i) <==> LosesNothing(config, states[i], events[i]));
  }

  /** The chain stored by each is valid. */
  ghost predicate StoreGood(p: Params, registry: Registry, writes: seq<Db>) {
    forall k :: 0 <= k < |writes| ==> GoodChain(p, registry, StoredChain(writes[k]))
  }

  ghost predicate AllGood(p: Params, registry: Registry, writes: seq<Db>) {
    AllConsistent(registry, writes) && StoreGood(p, registry, writes)
  }

  lemma ExtendGood(p: Params, registry: Registry, chain: seq<Block>, block: Block)
    requires GoodChain(p, registry, chain) && AcceptedOn(p, registry, chain, block)
    ensures AllGood(p, registry, ExtendWrites(DbOf(chain, registry), block))
  {
    var w := ExtendWrites(DbOf(chain, registry), block);
    AcceptedLosesNothing(p, registry, chain, block);
    GoodExtended(p, registry, chain, block);
    ExtendCrash(chain, block, registry);
    forall k | 0 <= k < |w| ensures GoodChain(p, registry, StoredChain(w[k])) {
      ExtendWriteByWrite(chain, block, registry, k);
      ConsistentIff(registry, chain + [block], w[k]);
    }
  }

  lemma TwoGood(p: Params, registry: Registry, a: Db, b: Db)
    requires GoodChain(p, registry, StoredChain(a)) && GoodChain(p, registry, StoredChain(b))
    ensures StoreGood(p, registry, [a, b])
  {
  }

  lemma RollbackGood(p: Params, registry: Registry, chain: seq<Block>, block: Block)
    requires GoodChain(p, registry, chain) && AcceptedOn(p, registry, chain, block)
    ensures StoreGood(p, registry, RollbackWrites(DbOf(chain + [block], registry), block))
    ensures RollbackBlock(DbOf(chain + [block], registry), block) == DbOf(chain, registry)
  {
    var db := DbOf(chain + [block], registry);
    AcceptedLosesNothing(p, registry, chain, block);
    GoodExtended(p, registry, chain, block);
    RollbackStored(chain, block, registry);
    StoredChainOf(chain + [block], registry);
    StoredChainOf(chain, registry);
    TwoGood(p, registry, RollbackCoins(db, block), RollbackBlock(db, block));
  }

  lemma ReorgGood(p: Params, registry: Registry, chain: seq<Block>, oldBlock: Block, newBlock: Block)
    requires GoodChain(p, registry, chain)
    requires AcceptedOn(p, registry, chain, oldBlock) && AcceptedOn(p, registry, chain, newBlock)
    ensures AllGood(p, registry, ReorgWrites(DbOf(chain + [oldBlock], registry), oldBlock, newBlock))
  {
    var db := DbOf(chain + [oldBlock], registry);
    AcceptedLosesNothing(p, registry, chain, oldBlock);
    AcceptedLosesNothing(p, registry, chain, newBlock);
    ReorgCrash(chain, oldBlock, newBlock, registry);
    RollbackGood(p, registry, chain, oldBlock);
    ExtendGood(p, registry, chain, newBlock);
    GoodJoined(p, registry, RollbackWrites(db, oldBlock), ExtendWrites(RollbackBlock(db, oldBlock), newBlock));
  }

  lemma GoodJoined(p: Params, registry: Registry, a: seq<Db>, b: seq<Db>)
    requires StoreGood(p, registry, a) && StoreGood(p, registry, b)
    ensures StoreGood(p, registry, a + b)
  {
  }

  /** In a careful step the chain stored after each write is valid as well. */
  lemma CarefulIsDurable(config: Config, registry: Registry, s: NodeState, chain: seq<Block>, e: Event, t: NodeState)
    requires KeyedByAddress(registry) && KeyMatches(config)
    requires Inv(config.params, registry, s, chain) && Step(config, s, e, t) && Careful(config, s, e)
    ensures AllGood(config.params, registry, Writes(config, s, e))
  {
    var p := config.params;
    match e
    case BlockArrives(block) =>
      var judgement := Judge(p, s.db, block);
      if judgement == Accepted {
        AcceptedExtends(p, registry, chain, block);
        ExtendGood(p, registry, chain, block);
      } else if judgement == Reorged {
        ReorgedExtendsParent(p, registry, chain, block);
        SplitLast(chain);
        ReorgGood(p, registry, Prefix(chain), Last(chain), block);
      }
    case TxArrives(tx) =>
    case SlotComes(now, picked) =>
      if TickSlot(config, s.db, now).Some? {
        var block := BuildBlock(config, s.db.tip.value, TickSlot(config, s.db, now).value, now, picked);
        Proposals.ProposedBlockPasses(config, registry, chain, now, picked, block);
        ExtendGood(p, registry, chain, block);
      }
  }

  // ── The node takes these steps ─────────────────────────────────────────────

  ghost function StateOf(node: Node): NodeState
    reads node.store, node.mempool
  {
    NodeState(node.store.Model(), node.mempool.txs)
  }

  method TakeBlock(node: Node, block: Block)
    requires node.Valid()
    modifies node.store, node.mempool
    ensures node.Valid() && Step(node.config, old(StateOf(node)), BlockArrives(block), StateOf(node))
    ensures node.store.journal == old(node.store.journal) + Writes(node.config, old(StateOf(node)), BlockArrives(block))
  {
    var judgement := node.OnNewBlock(block);
  }

  method TakeTx(node: Node, tx: Transaction)
    requires node.Valid()
    modifies node.mempool
    ensures node.Valid() && Step(node.config, old(StateOf(node)), TxArrives(tx), StateOf(node))
    ensures node.store.journal == old(node.store.journal) + Writes(node.config, old(StateOf(node)), TxArrives(tx))
  {
    var r, rebroadcast := node.OnNewTx(tx);
  }

  method TakeSlot(node: Node, now: I64) returns (ghost picked: seq<Transaction>)
    requires node.Valid() && ClockOk(node.config.params, now)
    modifies node.store, node.mempool
    ensures node.Valid() && Step(node.config, old(StateOf(node)), SlotComes(now, picked), StateOf(node))
    ensures node.store.journal
         == old(node.store.journal) + Writes(node.config, old(StateOf(node)), SlotComes(now, picked))
  {
    var proposed := node.Tick(now);
    picked := if proposed.Some? then proposed.value.txs else [];
  }
}
