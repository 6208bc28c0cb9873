/**
 A node: its stores, its mempool, and the steps that change them. Each step is
 atomic here and is proved against a function of the state before it; those
 functions are what the theorems about runs speak of.
 */
module Nodes {
  import opened Types
  import Merkle
  import Election
  import opened Validators
  import opened Validation
  import opened Storage
  import opened Durability
  import SledStores
  import opened Mempools

  const MAX_TXS_PER_BLOCK: nat := 512
  const MIN_PROPOSE_WINDOW_SECS: int := 1
  const MAX_BLOCKS_PER_REPLY: nat := 256

  /** `params` is shared by the network; the rest is this node's own. */
  datatype Config = Config(params: Params, myAddress: Address, mySigningKey: SecretKey, mempoolMaxSize: nat)

  /** Checked when the configuration is loaded. */
  predicate KeyMatches(config: Config) {
    AddressOf(VerifyingKey(config.mySigningKey)) == config.myAddress
  }

  // ── A block arrives ────────────────────────────────────────────────────────

  datatype Judgement =
    | AlreadyStored
    | ParentMissing
    | Rejected(reason: BlockError)
    | Accepted
    | KeptOurs
    | DifferentParent
    | TipMissing
    | Reorged
    | AskForBlocks(from: nat)
    | Stale

  predicate Known(db: Db, hash: Digest) {
    hash in db.blocksIdx && db.blocksIdx[hash] in db.blocksH
  }

  /** An empty store counts as a tip at height 0 with the all-zero hash. */
  function TipOrZero(db: Db): Tip {
    if db.tip.Some? then db.tip.value else Tip(0, ZeroDigest)
  }

  function Verdict(r: Result<(), BlockError>, good: Judgement): Judgement {
    if r.Ok? then good else Rejected(r.error)
  }

  /** The block claims to extend our tip. */
  function JudgeNext(p: Params, db: Db, tip: Tip, block: Block): Judgement {
    if tip.height !in db.blocksH then ParentMissing
    else Verdict(BlockVerdict(p, block, db.blocksH[tip.height], db.utxo, db.registry), Accepted)
  }

  /** The block has our tip's height: the lower hash wins, if both share their parent. */
  function JudgeRival(p: Params, db: Db, tip: Tip, block: Block): Judgement {
    var parentHeight := if tip.height > 0 then tip.height - 1 else 0;
    if BlockHash(block) == tip.hash then AlreadyStored
    else if p.digestValue(BlockHash(block)) >= p.digestValue(tip.hash) then KeptOurs
    else if parentHeight !in db.blocksH then ParentMissing
    else if block.header.prevHash != BlockHash(db.blocksH[parentHeight]) then DifferentParent
    else
      var verdict := BlockVerdict(p, block, db.blocksH[parentHeight], db.utxo, db.registry);
      if verdict.Ok? && tip.height !in db.blocksH then TipMissing else Verdict(verdict, Reorged)
  }

  function Judge(p: Params, db: Db, block: Block): Judgement {
    var height, tip := block.header.height, TipOrZero(db);
    if Known(db, BlockHash(block)) then AlreadyStored
    else if height == tip.height + 1 then JudgeNext(p, db, tip, block)
    else if height == tip.height then JudgeRival(p, db, tip, block)
    else if height > tip.height + 1 then AskForBlocks(tip.height + 1)
    else Stale
  }

  function TipBlock(db: Db): Option<Block> {
    var height := TipOrZero(db).height;
    if height in db.blocksH then Some(db.blocksH[height]) else None
  }

  /** Only two judgements change anything. */
  function DbAfter(db: Db, judgement: Judgement, block: Block): Db {
    match judgement
    case Accepted => Extend(db, block)
    case Reorged => if TipBlock(db).Some? then Reorg(db, TipBlock(db).value, block) else db
    case _ => db
  }

  function WritesAfter(db: Db, judgement: Judgement, block: Block): seq<Db> {
    match judgement
    case Accepted => ExtendWrites(db, block)
    case Reorged => if TipBlock(db).Some? then ReorgWrites(db, TipBlock(db).value, block) else []
    case _ => []
  }

  function PoolAfter(pool: Pool, judgement: Judgement, block: Block): Pool {
    if judgement in {Accepted, Reorged} then RemoveAll(pool, TxHashes(block.txs)) else pool
  }

  lemma Consequences(db: Db, pool: Pool, judgement: Judgement, block: Block)
    requires judgement == Reorged ==> TipBlock(db).Some?
    ensures judgement == Accepted ==>
      && DbAfter(db, judgement, block) == Extend(db, block)
      && WritesAfter(db, judgement, block) == ExtendWrites(db, block)
    ensures judgement == Reorged ==>
      && DbAfter(db, judgement, block) == Reorg(db, TipBlock(db).value, block)
      && WritesAfter(db, judgement, block) == ReorgWrites(db, TipBlock(db).value, block)
    ensures if judgement == Accepted || judgement == Reorged
            then PoolAfter(pool, judgement, block) == RemoveAll(pool, TxHashes(block.txs))
            else
              && DbAfter(db, judgement, block) == db && WritesAfter(db, judgement, block) == []
              && PoolAfter(pool, judgement, block) == pool
  {
  }

  // ── A slot comes round ─────────────────────────────────────────────────────

  /** `now` is never negative, and the slot length is positive as an i64: zero would fail the division. */
  predicate ClockOk(p: Params, now: I64) {
    now >= 0 && 0 < p.slotDuration <= I64_MAX
  }

  function SlotOf(p: Params, now: I64): (slot: U64)
    requires ClockOk(p, now)
    ensures slot <= I64_MAX
  {
    SlotIsSmall(now, p.slotDuration);
    now / p.slotDuration
  }

  lemma SlotIsSmall(now: nat, duration: nat)
    requires duration > 0
    ensures 0 <= now / duration <= now
  {
    var q, r := now / duration, now % duration;
    assert now == q * duration + r;
    if q > now {
      Election.MultipleAtLeast(duration, q);
    }
  }

  /** The slot to propose in, if this node is to propose at all. */
  function TickSlot(config: Config, db: Db, now: I64): Option<U64>
    requires ClockOk(config.params, now)
  {
    var p := config.params;
    var slot := SlotOf(p, now);
    var slotEnd := SlotEnd(p, slot);
    if now >= slotEnd || db.tip.None? then None
    else
      var tip := db.tip.value;
      if tip.height in db.blocksH && db.blocksH[tip.height].header.slot >= slot then None
      else
        var proposer := Election.Elect(p, slot, tip.hash, ActiveList(db.registry, slot));
        if proposer.Some? && proposer.value.address == config.myAddress
           && WrapI64(slotEnd - now) > MIN_PROPOSE_WINDOW_SECS
        then Some(slot)
        else None
  }

  function BuildBlock(config: Config, tip: Tip, slot: U64, timestamp: I64, txs: seq<Transaction>): Block {
    var header := BlockHeader(tip.hash, Merkle.MerkleRoot(txs), timestamp, tip.height + 1, slot, config.myAddress);
    Block(header, Sign(config.mySigningKey, HeaderBytes(header)), txs)
  }

  // ── Genesis ────────────────────────────────────────────────────────────────

  const GENESIS_MESSAGE: string := "Slipping Jimmy, counselor at law."

  datatype GenesisAccount = GenesisAccount(address: Address, balance: U64)
  datatype GenesisValidator = GenesisValidator(address: Address, pubkey: PublicKey, stake: U64)

  /** Entries as the file has them; None stands for text that does not decode. */
  datatype AccountEntry = AccountEntry(address: Option<Address>, balance: U64)
  datatype ValidatorEntry = ValidatorEntry(address: Option<Address>, pubkey: Option<PublicKey>, stake: U64)

  predicate AllDecode(accounts: seq<AccountEntry>) {
    forall k :: 0 <= k < |accounts| ==> accounts[k].address.Some?
  }

  function AccountsOf(accounts: seq<AccountEntry>): seq<GenesisAccount>
    requires AllDecode(accounts)
  {
    seq(|accounts|, i requires 0 <= i < |accounts| => GenesisAccount(accounts[i].address.value, accounts[i].balance))
  }

  /** The validators up to the first entry that does not decode. */
  function Decoded(entries: seq<ValidatorEntry>): seq<GenesisValidator>
    decreases |entries|
  {
    if entries == [] || entries[0].address.None? || entries[0].pubkey.None? then []
    else
      [GenesisValidator(entries[0].address.value, entries[0].pubkey.value, entries[0].stake)] + Decoded(entries[1..])
  }

  predicate WellFormed(e: ValidatorEntry) {
    e.address.Some? && e.pubkey.Some? && e.address.value == AddressOf(e.pubkey.value)
  }

  function AllocationTx(account: GenesisAccount): Transaction {
    Transaction(Transfer, [], [TxOutput(account.balance, account.address)])
  }

  function AllocationTxs(accounts: seq<GenesisAccount>): seq<Transaction> {
    seq(|accounts|, i requires 0 <= i < |accounts| => AllocationTx(accounts[i]))
  }

  /** The proposer is the address of the all-zero key; nobody signs. */
  function GenesisBlock(timestamp: I64, accounts: seq<GenesisAccount>): Block {
    var header := BlockHeader(ZeroDigest, OfText(GENESIS_MESSAGE), timestamp, 0, 0, AddressOf(PublicKey(SecretKey(0))));
    Block(header, ZERO_SIGNATURE, AllocationTxs(accounts))
  }

  /** The registry after the genesis validators up to the first one whose address is not its key's. */
  function GenesisRegistry(registry: Registry, entries: seq<GenesisValidator>): (r: Registry)
    requires KeyedByAddress(registry)
    ensures KeyedByAddress(r)
    decreases |entries|
  {
    if entries == [] || entries[0].address != AddressOf(entries[0].pubkey) then registry
    else
      var e := entries[0];
      GenesisRegistry(registry[e.address := Validator(e.address, e.pubkey, e.stake, 0)], entries[1..])
  }

  /** One durable write for each validator filed. */
  function RegistryWrites(db: Db, entries: seq<GenesisValidator>): seq<Db>
    decreases |entries|
  {
    if entries == [] || entries[0].address != AddressOf(entries[0].pubkey) then []
    else
      var e := entries[0];
      var next := db.(registry := db.registry[e.address := Validator(e.address, e.pubkey, e.stake, 0)]);
      [next] + RegistryWrites(next, entries[1..])
  }

  function GenesisWrites(
    db: Db, timestamp: I64, accounts: seq<GenesisAccount>, entries: seq<GenesisValidator>): seq<Db>
  {
    StoreWrites(db, GenesisBlock(timestamp, accounts), entries)
  }

  function StoreWrites(db: Db, genesis: Block, entries: seq<GenesisValidator>): seq<Db> {
    ExtendWrites(db, genesis) + RegistryWrites(Extend(db, genesis), entries)
  }

  /** A block at height 0 counts as genesis done. */
  function AfterGenesis(db: Db, timestamp: I64, accounts: seq<GenesisAccount>, entries: seq<GenesisValidator>): Db
    requires KeyedByAddress(db.registry)
  {
    if 0 in db.blocksH then db
    else Extend(db, GenesisBlock(timestamp, accounts)).(registry := GenesisRegistry(db.registry, entries))
  }

  class Node {
    const config: Config
    const store: SledStores.SledStore
    const mempool: Mempool

    ghost predicate Valid()
      reads mempool
    {
      mempool.Valid() && mempool.maxSize == config.mempoolMaxSize
    }

    constructor (c: Config)
      ensures Valid() && config == c && fresh(store) && fresh(mempool)
      ensures store.Model() == EMPTY_DB && store.journal == [] && mempool.txs == map[]
    {
      config := c;
      store := new SledStores.SledStore();
      mempool := new Mempool(c.mempoolMaxSize);
    }

    /**
     Does nothing when a block at height 0 exists, nor when an account's address
     does not decode; stops at the first validator that does not decode or whose
     address is not its key's.
     */
    method ApplyGenesis(timestamp: I64, accounts: seq<AccountEntry>, entries: seq<ValidatorEntry>)
      returns (ok: bool)
      requires KeyedByAddress(store.validators)
      modifies store
      ensures 0 in old(store.blocksH) || !AllDecode(accounts) ==>
        && store.Model() == old(store.Model()) && store.journal == old(store.journal)
        && (ok <==> 0 in old(store.blocksH))
      ensures 0 !in old(store.blocksH) && AllDecode(accounts) ==>
        && store.Model() == AfterGenesis(old(store.Model()), timestamp, AccountsOf(accounts), Decoded(entries))
        && store.journal
           == old(store.journal) + GenesisWrites(old(store.Model()), timestamp, AccountsOf(accounts), Decoded(entries))
        && (ok <==> forall e :: e in entries ==> WellFormed(e))
    {
      var stored := store.GetByHeight(0);
      if stored.Some? {
        return true;
      }
      var allocations: seq<GenesisAccount> := [];
      for k := 0 to |accounts|
        invariant AllDecode(accounts[..k]) && allocations == AccountsOf(accounts[..k])
      {
        if accounts[k].address.None? {
          return false;
        }
        allocations := allocations + [GenesisAccount(accounts[k].address.value, accounts[k].balance)];
      }
      assert accounts[..|accounts|] == accounts;
      ok := StoreGenesis(GenesisBlock(timestamp, allocations), entries);
    }

    method StoreGenesis(genesis: Block, entries: seq<ValidatorEntry>) returns (ok: bool)
      requires KeyedByAddress(store.validators)
      modifies store
      ensures store.Model()
           == Extend(old(store.Model()), genesis).(registry := GenesisRegistry(old(store.validators), Decoded(entries)))
      ensures store.journal == old(store.journal) + StoreWrites(old(store.Model()), genesis, Decoded(entries))
      ensures ok <==> forall e :: e in entries ==> WellFormed(e)
    {
      StoreBlock(genesis);
      ok := FileValidators(entries);
    }

    /** Up to the first one that does not decode or whose address is not its key's. */
    method FileValidators(entries: seq<ValidatorEntry>) returns (ok: bool)
      requires KeyedByAddress(store.validators)
      modifies store
      ensures store.Model()
           == old(store.Model()).(registry := GenesisRegistry(old(store.validators), Decoded(entries)))
      ensures store.journal == old(store.journal) + RegistryWrites(old(store.Model()), Decoded(entries))
      ensures ok <==> forall e :: e in entries ==> WellFormed(e)
    {
      ghost var base, written, all := store.Model(), store.journal, Decoded(entries);
      assert entries[0..] == entries;
      for k := 0 to |entries|
        invariant KeyedByAddress(store.validators)
        invariant store.Model() == base.(registry := store.validators)
        invariant GenesisRegistry(store.validators, Decoded(entries[k..])) == GenesisRegistry(base.registry, all)
        invariant store.journal + RegistryWrites(store.Model(), Decoded(entries[k..]))
               == written + RegistryWrites(base, all)
        invariant forall j :: 0 <= j < k ==> WellFormed(entries[j])
      {
        var e := entries[k];
        assert e in entries && entries[k..][0] == e && entries[k..][1..] == entries[k + 1..];
        if e.address.None? || e.pubkey.None? {
          return false;
        }
        assert Decoded(entries[k..])[1..] == Decoded(entries[k + 1..]);
        var filed := store.Upsert(Validator(e.address.value, e.pubkey.value, e.stake, 0));
        if !filed {
          return false;
        }
      }
      return true;
    }

    /** One `NewBlock` message. */
    method OnNewBlock(block: Block) returns (judgement: Judgement)
      requires Valid()
      modifies store, mempool
      ensures Valid()
      ensures judgement == Judge(config.params, old(store.Model()), block)
      ensures store.Model() == DbAfter(old(store.Model()), judgement, block)
      ensures mempool.txs == PoolAfter(old(mempool.txs), judgement, block)
      ensures store.journal == old(store.journal) + WritesAfter(old(store.Model()), judgement, block)
    {
      judgement := Consider(block);
      Obey(judgement, block);
    }

    method Obey(judgement: Judgement, block: Block)
      requires Valid() && (judgement == Reorged ==> TipBlock(store.Model()).Some?)
      modifies store, mempool
      ensures Valid()
      ensures store.Model() == DbAfter(old(store.Model()), judgement, block)
      ensures mempool.txs == PoolAfter(old(mempool.txs), judgement, block)
      ensures store.journal == old(store.journal) + WritesAfter(old(store.Model()), judgement, block)
    {
      Consequences(store.Model(), mempool.txs, judgement, block);
      if judgement == Accepted {
        AppendBlock(block);
      } else if judgement == Reorged {
        SwitchTip(block);
      }
    }

    method Consider(block: Block) returns (judgement: Judgement)
      ensures judgement == Judge(config.params, store.Model(), block)
      ensures judgement == Reorged ==> TipBlock(store.Model()).Some?
    {
      var known := store.GetByHash(BlockHash(block));
      if known.Some? {
        return AlreadyStored;
      }
      var stored := store.GetTip();
      var tip := if stored.Some? then stored.value else Tip(0, ZeroDigest);
      var height := block.header.height;
      if height == tip.height + 1 {
        judgement := ConsiderNext(tip, block);
      } else if height == tip.height {
        judgement := ConsiderRival(tip, block);
      } else if height > tip.height + 1 {
        judgement := AskForBlocks(tip.height + 1);
      } else {
        judgement := Stale;
      }
    }

    method Check(block: Block, parent: Block) returns (r: Result<(), BlockError>)
      ensures r == BlockVerdict(config.params, block, parent, store.utxo, store.validators)
    {
      var active := store.AllActive(block.header.slot);
      r := ValidateBlock(config.params, block, parent, store.utxo, store.validators, active);
    }

    method ConsiderNext(tip: Tip, block: Block) returns (judgement: Judgement)
      ensures judgement == JudgeNext(config.params, store.Model(), tip, block)
    {
      var parent := store.GetByHeight(tip.height);
      if parent.None? {
        return ParentMissing;
      }
      var verdict := Check(block, parent.value);
      if verdict.Err? {
        return Rejected(verdict.error);
      }
      return Accepted;
    }

    method ConsiderRival(tip: Tip, block: Block) returns (judgement: Judgement)
      ensures judgement == JudgeRival(config.params, store.Model(), tip, block)
    {
      if BlockHash(block) == tip.hash {
        return AlreadyStored;
      }
      if config.params.digestValue(BlockHash(block)) >= config.params.digestValue(tip.hash) {
        return KeptOurs;
      }
      var parent := store.GetByHeight(if tip.height > 0 then tip.height - 1 else 0);
      if parent.None? {
        return ParentMissing;
      }
      if block.header.prevHash != BlockHash(parent.value) {
        return DifferentParent;
      }
      var verdict := Check(block, parent.value);
      if verdict.Err? {
        return Rejected(verdict.error);
      }
      var currentTip := store.GetByHeight(tip.height);
      if currentTip.None? {
        return TipMissing;
      }
      return Reorged;
    }

    /** Insert, apply, and drop the included transactions from the pool. */
    method AppendBlock(block: Block)
      requires Valid()
      modifies store, mempool
      ensures Valid()
      ensures store.Model() == Extend(old(store.Model()), block)
      ensures store.journal == old(store.journal) + ExtendWrites(old(store.Model()), block)
      ensures mempool.txs == RemoveAll(old(mempool.txs), TxHashes(block.txs))
    {
      StoreBlock(block);
      mempool.Remove(TxHashes(block.txs));
    }

    method StoreBlock(block: Block)
      modifies store
      ensures store.Model() == Extend(old(store.Model()), block)
      ensures store.journal == old(store.journal) + ExtendWrites(old(store.Model()), block)
    {
      store.Insert(block);
      store.ApplyBlock(block);
    }

    /** Replace the stored tip. */
    method SwitchTip(block: Block)
      requires Valid() && TipBlock(store.Model()).Some?
      modifies store, mempool
      ensures Valid()
      ensures var db := old(store.Model());
              && store.Model() == Reorg(db, TipBlock(db).value, block)
              && store.journal == old(store.journal) + ReorgWrites(db, TipBlock(db).value, block)
      ensures mempool.txs == RemoveAll(old(mempool.txs), TxHashes(block.txs))
    {
      var stored := store.GetTip();
      var currentTip := store.GetByHeight(if stored.Some? then stored.value.height else 0);
      ReorgBlock(currentTip.value, block);
      mempool.Remove(TxHashes(block.txs));
    }

    method ReorgBlock(oldBlock: Block, newBlock: Block)
      modifies store
      ensures store.Model() == Reorg(old(store.Model()), oldBlock, newBlock)
      ensures store.journal == old(store.journal) + ReorgWrites(old(store.Model()), oldBlock, newBlock)
    {
      store.RollbackBlock(oldBlock);
      StoreBlock(newBlock);
    }

    /** One `NewTx` message; the transaction is passed on only when it was new. */
    method OnNewTx(tx: Transaction) returns (r: Result<AddedToPool, PoolError>, rebroadcast: bool)
      requires Valid()
      modifies mempool
      ensures Valid()
      ensures AddStep(old(mempool.txs), config.mempoolMaxSize, tx, store.utxo, mempool.txs, r)
      ensures rebroadcast <==> TxHash(tx) !in old(mempool.txs) && TxHash(tx) in mempool.txs
    {
      r := mempool.Add(tx, store.utxo);
      rebroadcast := r.Ok? && r.value.newlyAdded;
    }

    /** The reply to `GetBlocks`. */
    method OnGetBlocks(from: nat) returns (batch: seq<Block>)
      ensures batch == Reply(store.blocksH, from)
    {
      var blocks := store.IterFrom(from);
      batch := blocks[..Min(|blocks|, MAX_BLOCKS_PER_REPLY)];
    }

    /** One iteration of the slot ticker; `proposed` is the block it built, if any. */
    method Tick(now: I64) returns (proposed: Option<Block>)
      requires Valid() && ClockOk(config.params, now)
      modifies store, mempool
      ensures Valid()
      ensures proposed.Some? <==> TickSlot(config, old(store.Model()), now).Some?
      ensures proposed.None? ==>
        store.Model() == old(store.Model()) && mempool.txs == old(mempool.txs) && store.journal == old(store.journal)
      ensures proposed.Some? ==>
        var db, pool, block := old(store.Model()), old(mempool.txs), proposed.value;
        && db.tip.Some?
        && block == BuildBlock(config, db.tip.value, TickSlot(config, db, now).value, now, block.txs)
        && Drained(pool, block.txs) && |block.txs| == Min(MAX_TXS_PER_BLOCK, |pool|)
        && store.Model() == Extend(db, block)
        && store.journal == old(store.journal) + ExtendWrites(db, block)
        && mempool.txs == RemoveAll(pool, TxHashes(block.txs))
    {
      var p := config.params;
      var slot := SlotOf(p, now);
      var slotEnd := SlotEnd(p, slot);
      if now >= slotEnd {
        return None;
      }
      var tip := store.GetTip();
      if tip.None? {
        return None;
      }
      var validators := store.AllActive(slot);
      var tipBlock := store.GetByHeight(tip.value.height);
      if tipBlock.Some? && tipBlock.value.header.slot >= slot {
        return None;
      }
      var proposer := Election.ElectProposer(p, slot, tip.value.hash, validators);
      if proposer.Some? && proposer.value.address == config.myAddress
         && WrapI64(slotEnd - now) > MIN_PROPOSE_WINDOW_SECS {
        var block := ProposeBlock(tip.value, slot, now);
        return Some(block);
      }
      return None;
    }

    method ProposeBlock(tip: Tip, slot: U64, timestamp: I64) returns (block: Block)
      requires Valid()
      modifies store, mempool
      ensures Valid()
      ensures block == BuildBlock(config, tip, slot, timestamp, block.txs)
      ensures Drained(old(mempool.txs), block.txs) && |block.txs| == Min(MAX_TXS_PER_BLOCK, |old(mempool.txs)|)
      ensures store.Model() == Extend(old(store.Model()), block)
      ensures store.journal == old(store.journal) + ExtendWrites(old(store.Model()), block)
      ensures mempool.txs == RemoveAll(old(mempool.txs), TxHashes(block.txs))
    {
      block := Draft(tip, slot, timestamp);
      AppendBlock(block);
    }

    /** Drain the pool, build the header over the drained transactions, sign it. */
    method Draft(tip: Tip, slot: U64, timestamp: I64) returns (block: Block)
      requires Valid()
      ensures block == BuildBlock(config, tip, slot, timestamp, block.txs)
      ensures Drained(mempool.txs, block.txs) && |block.txs| == Min(MAX_TXS_PER_BLOCK, |mempool.txs|)
    {
      var txs := mempool.Drain(MAX_TXS_PER_BLOCK);
      var merkleRoot := Merkle.ComputeMerkleRoot(txs);
      var header := BlockHeader(tip.hash, merkleRoot, timestamp, tip.height + 1, slot, config.myAddress);
      block := Block(header, Sign(config.mySigningKey, HeaderBytes(header)), txs);
    }
  }

  function Reply(blocksH: map<nat, Block>, from: nat): seq<Block> {
    var blocks := BlocksFrom(blocksH, from);
    blocks[..Min(|blocks|, MAX_BLOCKS_PER_REPLY)]
  }
}
