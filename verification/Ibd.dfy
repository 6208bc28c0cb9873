/**
 Initial block download. The network is a script of outcomes, and what peers
 answer is not restricted.
 */
module Ibd {
  import opened Types
  import Ledger
  import opened Validators
  import opened Validation
  import opened Storage
  import opened Chain
  import opened Durability
  import opened Nodes

  const MAX_CONSECUTIVE_TIMEOUTS: nat := 3
  const MAX_IBD_RETRIES: nat := 5
  const BLOCKS_PER_REQUEST: nat := 256

  datatype IbdError = ParentNotFound(height: nat) | InvalidBlock(height: nat, reason: BlockError)

  // ── One batch ──────────────────────────────────────────────────────────────

  datatype Batch = Batch(db: Db, error: Option<IbdError>)

  /** Each block is checked on the block stored below it; the genesis block has nothing to be checked against. */
  function CheckStored(p: Params, db: Db, block: Block): Option<IbdError> {
    var height := block.header.height;
    if height == 0 then None
    else if height - 1 !in db.blocksH then Some(ParentNotFound(height - 1))
    else
      match BlockVerdict(p, block, db.blocksH[height - 1], db.utxo, db.registry)
      case Ok(_) => None
      case Err(e) => Some(InvalidBlock(height, e))
  }

  /** One more block after a batch, which may have failed already. */
  function AddToBatch(p: Params, before: Batch, block: Block): Batch {
    if before.error.Some? then before
    else
      var error := CheckStored(p, before.db, block);
      if error.Some? then Batch(before.db, error) else Batch(Extend(before.db, block), None)
  }

  /** Blocks are stored one by one until the first that fails. */
  function StoreBatch(p: Params, db: Db, blocks: seq<Block>): Batch {
    if blocks == [] then Batch(db, None)
    else AddToBatch(p, StoreBatch(p, db, blocks[..|blocks| - 1]), blocks[|blocks| - 1])
  }

  lemma {:induction false} ErrorStays(p: Params, db: Db, blocks: seq<Block>, k: nat)
    requires k <= |blocks| && StoreBatch(p, db, blocks[..k]).error.Some?
    ensures StoreBatch(p, db, blocks) == StoreBatch(p, db, blocks[..k])
  {
    if k == |blocks| {
      assert blocks[..k] == blocks;
    } else {
      var init := blocks[..|blocks| - 1];
      assert init[..k] == blocks[..k];
      ErrorStays(p, db, init, k);
    }
  }

  method CheckNext(node: Node, block: Block) returns (error: Option<IbdError>)
    ensures error == CheckStored(node.config.params, node.store.Model(), block)
  {
    var height := block.header.height;
    if height == 0 {
      return None;
    }
    var parent := node.store.GetByHeight(height - 1);
    if parent.None? {
      return Some(ParentNotFound(height - 1));
    }
    var verdict := node.Check(block, parent.value);
    return if verdict.Err? then Some(InvalidBlock(height, verdict.error)) else None;
  }

  method StoreChecked(node: Node, block: Block) returns (error: Option<IbdError>)
    modifies node.store
    ensures error == CheckStored(node.config.params, old(node.store.Model()), block)
    ensures node.store.Model()
         == if error.Some? then old(node.store.Model()) else Extend(old(node.store.Model()), block)
  {
    error := CheckNext(node, block);
    if error.None? {
      node.StoreBlock(block);
    }
  }

  lemma BatchStep(p: Params, db: Db, blocks: seq<Block>, k: nat)
    requires k < |blocks| && StoreBatch(p, db, blocks[..k]).error.None?
    ensures var before := StoreBatch(p, db, blocks[..k]).db;
            var error := CheckStored(p, before, blocks[k]);
            && (error.Some? ==> StoreBatch(p, db, blocks) == Batch(before, error))
            && (error.None? ==> StoreBatch(p, db, blocks[..k + 1]) == Batch(Extend(before, blocks[k]), None))
  {
    assert blocks[..k + 1][..k] == blocks[..k];
    if StoreBatch(p, db, blocks[..k + 1]).error.Some? {
      ErrorStays(p, db, blocks, k + 1);
    }
  }

  method ApplyBatch(node: Node, blocks: seq<Block>) returns (error: Option<IbdError>)
    modifies node.store
    ensures Batch(node.store.Model(), error) == StoreBatch(node.config.params, old(node.store.Model()), blocks)
  {
    ghost var p, db := node.config.params, node.store.Model();
    for k := 0 to |blocks|
      invariant StoreBatch(p, db, blocks[..k]) == Batch(node.store.Model(), None)
    {
      BatchStep(p, db, blocks, k);
      error := StoreChecked(node, blocks[k]);
      if error.Some? {
        return;
      }
    }
    assert blocks[..|blocks|] == blocks;
    return None;
  }

  // ── A batch of a peer's chain ──────────────────────────────────────────────

  /** What a peer may serve: numbered blocks whose output sums do not wrap around. Nothing says they are valid. */
  ghost predicate Servable(chain: seq<Block>) {
    NumberedFromZero(chain) && forall i :: 0 <= i < |chain| ==> NoOverflows(chain[i].txs)
  }

  /** We hold exactly the first `n` blocks of the peer's chain, all of them valid. */
  ghost predicate Holds(p: Params, registry: Registry, db: Db, chain: seq<Block>, n: nat) {
    0 < n <= |chain| && GoodChain(p, registry, chain[..n]) && db == DbOf(chain[..n], registry)
  }

  /** The `n`-th block of the peer's chain does not pass on the blocks before it. */
  ghost predicate FailsAt(p: Params, registry: Registry, chain: seq<Block>, n: nat) {
    0 < n < |chain| && BlockVerdict(p, chain[n], chain[n - 1], Replay(chain[..n]).utxo, registry) != Ok(())
  }

  /** The store is that of the first `n` blocks of the peer's chain. */
  ghost predicate Mirrors(registry: Registry, db: Db, chain: seq<Block>, n: nat) {
    0 < n <= |chain| && db == DbOf(chain[..n], registry)
  }

  lemma CheckIsVerdict(p: Params, registry: Registry, db: Db, chain: seq<Block>, n: nat)
    requires Servable(chain) && Mirrors(registry, db, chain, n) && n < |chain|
    ensures CheckStored(p, db, chain[n])
         == match BlockVerdict(p, chain[n], chain[n - 1], Replay(chain[..n]).utxo, registry)
            case Ok(_) => None
            case Err(e) => Some(InvalidBlock(n, e))
  {
    assert db.blocksH[n - 1] == chain[n - 1];
  }

  lemma MirrorsMore(registry: Registry, db: Db, chain: seq<Block>, n: nat)
    requires Servable(chain) && Mirrors(registry, db, chain, n) && n < |chain|
    ensures Mirrors(registry, Extend(db, chain[n]), chain, n + 1)
  {
    assert chain[..n] + [chain[n]] == chain[..n + 1];
    StoresOne(registry, db, chain[..n], chain[n], chain[..n + 1]);
  }

  lemma StoresOne(registry: Registry, db: Db, have: seq<Block>, block: Block, more: seq<Block>)
    requires db == DbOf(have, registry) && more == have + [block] && block.header.height == |have|
    ensures Extend(db, block) == DbOf(more, registry)
  {
    ExtendStored(have, block, registry);
  }

  ghost function Fails(p: Params, registry: Registry, chain: seq<Block>): nat -> bool {
    (i: nat) => FailsAt(p, registry, chain, i)
  }

  /** How far one gets from `n` on the way to `m`: there, or right before the first that fails. */
  ghost function Reach(fails: nat -> bool, n: nat, m: nat): (r: nat)
    requires n <= m
    ensures n <= r <= m
  {
    if n == m then n
    else
      var r := Reach(fails, n, m - 1);
      if r == m - 1 && !fails(m - 1) then m else r
  }

  lemma {:induction false} ReachStops(fails: nat -> bool, n: nat, m: nat)
    requires n <= m
    ensures forall i: nat :: n <= i < Reach(fails, n, m) ==> !fails(i)
    ensures Reach(fails, n, m) < m ==> fails(Reach(fails, n, m))
  {
    if n < m {
      ReachStops(fails, n, m - 1);
    }
  }

  lemma OneMore(p: Params, registry: Registry, db: Db, chain: seq<Block>, n: nat)
    requires Servable(chain) && Mirrors(registry, db, chain, n) && n < |chain|
    ensures var after := AddToBatch(p, Batch(db, None), chain[n]);
            if FailsAt(p, registry, chain, n)
            then after.error.Some? && after.error.value.InvalidBlock? && after.error.value.height == n && after.db == db
            else after == Batch(Extend(db, chain[n]), None)
  {
    CheckIsVerdict(p, registry, db, chain, n);
  }

  /** The batch has stored the first `reached` blocks of the chain, and failed at the next if that is not `m`. */
  ghost predicate Got(registry: Registry, chain: seq<Block>, batch: Batch, reached: nat, m: nat) {
    && reached <= |chain| && batch.db == DbOf(chain[..reached], registry) && (batch.error.None? <==> reached == m)
    && (batch.error.Some? ==> batch.error.value.InvalidBlock? && batch.error.value.height == reached)
  }

  lemma BatchGrows(
    p: Params, registry: Registry, chain: seq<Block>, n: nat, m: nat, before: Batch, held: nat, reached: nat)
    requires Servable(chain) && 0 < n <= m < |chain|
    requires held == Reach(Fails(p, registry, chain), n, m) && reached == Reach(Fails(p, registry, chain), n, m + 1)
    requires Got(registry, chain, before, held, m)
    ensures Got(registry, chain, AddToBatch(p, before, chain[m]), reached, m + 1)
  {
    if before.error.None? {
      OneMore(p, registry, before.db, chain, m);
      MirrorsMore(registry, before.db, chain, m);
    }
  }

  lemma LastOfBatch(p: Params, db: Db, chain: seq<Block>, n: nat, m: nat)
    requires n <= m < |chain|
    ensures StoreBatch(p, db, chain[n..m + 1]) == AddToBatch(p, StoreBatch(p, db, chain[n..m]), chain[m])
  {
    var part := chain[n..m + 1];
    assert part[..|part| - 1] == chain[n..m] && part[|part| - 1] == chain[m];
  }

  lemma NothingYet(p: Params, registry: Registry, db: Db, chain: seq<Block>, n: nat, batch: Batch)
    requires n <= |chain| && db == DbOf(chain[..n], registry) && batch == StoreBatch(p, db, chain[n..n])
    ensures Got(registry, chain, batch, n, n)
  {
    assert chain[n..n] == [];
  }

  lemma OneBlockMore(
    p: Params, registry: Registry, db: Db, chain: seq<Block>, n: nat, m: nat, before: Batch, after: Batch)
    requires Servable(chain) && 0 < n <= m < |chain|
    requires before == StoreBatch(p, db, chain[n..m]) && after == StoreBatch(p, db, chain[n..m + 1])
    requires Got(registry, chain, before, Reach(Fails(p, registry, chain), n, m), m)
    ensures Got(registry, chain, after, Reach(Fails(p, registry, chain), n, m + 1), m + 1)
  {
    var fails := Fails(p, registry, chain);
    LastOfBatch(p, db, chain, n, m);
    BatchGrows(p, registry, chain, n, m, before, Reach(fails, n, m), Reach(fails, n, m + 1));
  }

  /** A batch stores a valid prefix, and fails only at the first invalid block. */
  lemma {:induction false} BatchOfPeer(
    p: Params, registry: Registry, db: Db, chain: seq<Block>, n: nat, m: nat, batch: Batch)
    requires Servable(chain) && 0 < n <= m <= |chain| && db == DbOf(chain[..n], registry)
    requires batch == StoreBatch(p, db, chain[n..m])
    ensures Got(registry, chain, batch, Reach(Fails(p, registry, chain), n, m), m)
    decreases m
  {
    if n == m {
      NothingYet(p, registry, db, chain, n, batch);
    } else {
      var before := StoreBatch(p, db, chain[n..m - 1]);
      BatchOfPeer(p, registry, db, chain, n, m - 1, before);
      OneBlockMore(p, registry, db, chain, n, m - 1, before, batch);
    }
  }

  /** Blocks that pass extend a good chain to a good chain. */
  lemma {:induction false} PassedIsGood(p: Params, registry: Registry, chain: seq<Block>, n: nat, k: nat)
    requires Servable(chain) && 0 < n <= k <= |chain|
    requires GoodChain(p, registry, chain[..n]) && (forall i: nat :: n <= i < k ==> !Fails(p, registry, chain)(i))
    ensures GoodChain(p, registry, chain[..k])
    decreases k
  {
    if n < k {
      PassedIsGood(p, registry, chain, n, k - 1);
      assert !Fails(p, registry, chain)(k - 1);
      NextIsGood(p, registry, chain, k - 1);
    }
  }

  lemma NextIsGood(p: Params, registry: Registry, chain: seq<Block>, k: nat)
    requires Servable(chain) && 0 < k < |chain| && GoodChain(p, registry, chain[..k]) && !FailsAt(p, registry, chain, k)
    ensures GoodChain(p, registry, chain[..k + 1])
  {
    var have := chain[..k];
    VerdictAccepts(p, registry, have, chain[k], chain[k - 1]);
    assert have + [chain[k]] == chain[..k + 1];
    GoodMore(p, registry, have, chain[k], chain[..k + 1]);
  }

  lemma GoodMore(p: Params, registry: Registry, have: seq<Block>, block: Block, more: seq<Block>)
    requires GoodChain(p, registry, have) && AcceptedOn(p, registry, have, block) && more == have + [block]
    ensures GoodChain(p, registry, more)
  {
    GoodExtended(p, registry, have, block);
  }

  /** An answer that leaves a gap fails at its first block, and nothing is stored. */
  lemma GapFails(p: Params, registry: Registry, chain: seq<Block>, blocks: seq<Block>)
    requires blocks != [] && blocks[0].header.height > |chain|
    ensures StoreBatch(p, DbOf(chain, registry), blocks)
         == Batch(DbOf(chain, registry), Some(ParentNotFound(blocks[0].header.height - 1)))
  {
    assert blocks[..0] == [];
    BatchFails(p, DbOf(chain, registry), blocks, 0, DbOf(chain, registry),
               ParentNotFound(blocks[0].header.height - 1));
  }

  /** A block at height 0 is never checked: it takes the place of the stored one, and the tip record follows it. */
  lemma GenesisUnchecked(p: Params, registry: Registry, chain: seq<Block>, block: Block)
    requires chain != [] && block.header.height == 0
    ensures var batch := StoreBatch(p, DbOf(chain, registry), [block]);
            && batch.error == None && batch.db.blocksH == BlocksOf(chain[0 := block])
            && batch.db.tip == Some(Tip(0, BlockHash(block)))
            && CoinsIn(batch.db) == Ledger.ApplyTxs(0, Replay(chain), block.txs)
  {
    assert [block][..0] == [];
    assert BlocksOf(chain[0 := block]) == BlocksOf(chain)[0 := block];
  }

  // ── An answer that comes twice ─────────────────────────────────────────────

  /**
   The state of `chain`, but with the tip record set back to the block before `k`
   if the blocks from `n` to there were stored again.
   */
  function TipMoved(chain: seq<Block>, registry: Registry, n: nat, k: nat): Db
    requires n <= k <= |chain|
  {
    if k == n then DbOf(chain, registry)
    else DbOf(chain, registry).(tip := Some(Tip(k - 1, BlockHash(chain[k - 1]))))
  }

  ghost predicate EmptyFrom(chain: seq<Block>, n: nat, k: nat)
    requires k <= |chain|
  {
    forall i :: n <= i < k ==> chain[i].txs == []
  }

  /** A stored block passes once more exactly when it has no transactions: those it has are spent. */
  lemma CheckedAgain(p: Params, registry: Registry, chain: seq<Block>, k: nat)
    requires GoodChain(p, registry, chain) && 0 < k < |chain|
    ensures BlockVerdict(p, chain[k], chain[k - 1], Replay(chain).utxo, registry)
         == if chain[k].txs == [] then Ok(()) else Err(InvalidTransaction)
  {
    GoodPrefix(p, registry, chain, k);
    if chain[k].txs != [] {
      var tx := chain[k].txs[0];
      if ValidTx(tx, Replay(chain).utxo) {
        ValidIsUnconfirmed(p, registry, chain, tx, k);
      }
    }
  }

  /** Storing a stored block without transactions once more moves the tip record and nothing else. */
  lemma EmptyBlockAgain(db: Db, block: Block)
    requires block.header.height in db.blocksH && db.blocksH[block.header.height] == block && block.txs == []
    requires BlockHash(block) in db.blocksIdx && db.blocksIdx[BlockHash(block)] == block.header.height
    requires db.sentinel == None
    ensures Extend(db, block) == db.(tip := Some(Tip(block.header.height, BlockHash(block))))
  {
    assert db.blocksH[block.header.height := block] == db.blocksH;
    assert db.blocksIdx[BlockHash(block) := block.header.height] == db.blocksIdx;
  }

  /** A check looks at the block below, the coins and the registry only. */
  lemma CheckedOn(p: Params, db: Db, block: Block, parent: Block, utxo: Ledger.Utxo, registry: Registry)
    requires block.header.height > 0 && block.header.height - 1 in db.blocksH
    requires db.blocksH[block.header.height - 1] == parent && db.utxo == utxo && db.registry == registry
    ensures CheckStored(p, db, block)
         == match BlockVerdict(p, block, parent, utxo, registry)
            case Ok(_) => None
            case Err(e) => Some(InvalidBlock(block.header.height, e))
  {
  }

  lemma TipMovedKeeps(registry: Registry, chain: seq<Block>, n: nat, k: nat, db: Db)
    requires n <= k < |chain| && k > 0 && db == TipMoved(chain, registry, n, k)
    ensures k - 1 in db.blocksH && db.blocksH[k - 1] == chain[k - 1]
    ensures db.utxo == Replay(chain).utxo && db.registry == registry
  {
  }

  lemma StoredAgain(p: Params, registry: Registry, chain: seq<Block>, n: nat, k: nat, db: Db)
    requires GoodChain(p, registry, chain) && n <= k < |chain| && k > 0 && db == TipMoved(chain, registry, n, k)
    ensures CheckStored(p, db, chain[k])
         == if chain[k].txs == [] then None else Some(InvalidBlock(k, InvalidTransaction))
  {
    GoodNumbered(p, registry, chain);
    TipMovedKeeps(registry, chain, n, k, db);
    CheckedAgain(p, registry, chain, k);
    CheckedOn(p, db, chain[k], chain[k - 1], Replay(chain).utxo, registry);
  }

  lemma TipMovesOn(p: Params, registry: Registry, chain: seq<Block>, n: nat, k: nat)
    requires GoodChain(p, registry, chain) && n <= k < |chain| && chain[k].txs == []
    ensures Extend(TipMoved(chain, registry, n, k), chain[k]) == TipMoved(chain, registry, n, k + 1)
  {
    GoodChainLinks(p, registry, chain);
    IndexInverse(chain);
    EmptyBlockAgain(TipMoved(chain, registry, n, k), chain[k]);
  }

  lemma {:induction false} EmptyBlocksAgain(p: Params, registry: Registry, chain: seq<Block>, n: nat, k: nat)
    requires GoodChain(p, registry, chain) && 0 < n <= k <= |chain| && EmptyFrom(chain, n, k)
    ensures StoreBatch(p, DbOf(chain, registry), chain[n..k]) == Batch(TipMoved(chain, registry, n, k), None)
    decreases k
  {
    var db := DbOf(chain, registry);
    if n == k {
      assert chain[n..n] == [];
    } else {
      EmptyBlocksAgain(p, registry, chain, n, k - 1);
      LastOfBatch(p, db, chain, n, k - 1);
      StoredAgain(p, registry, chain, n, k - 1, TipMoved(chain, registry, n, k - 1));
      TipMovesOn(p, registry, chain, n, k - 1);
    }
  }

  /**
   A second answer to one request, of blocks stored already, does nothing if they
   have no transactions. Otherwise the download fails at the first block `h` that
   has some, with the tip record left at the block before it although the chain
   above is still stored.
   */
  lemma AnsweredTwice(p: Params, registry: Registry, chain: seq<Block>, n: nat, h: nat)
    requires GoodChain(p, registry, chain) && 0 < n <= h <= |chain| && EmptyFrom(chain, n, h)
    requires h < |chain| ==> chain[h].txs != []
    ensures StoreBatch(p, DbOf(chain, registry), chain[n..])
         == if h == |chain| then Batch(DbOf(chain, registry), None)
            else Batch(TipMoved(chain, registry, n, h), Some(InvalidBlock(h, InvalidTransaction)))
  {
    EmptyBlocksAgain(p, registry, chain, n, h);
    if h == |chain| {
      assert chain[n..] == chain[n..h];
      TipIsBack(chain, registry, n);
    } else {
      StoredAgain(p, registry, chain, n, h, TipMoved(chain, registry, n, h));
      var error := InvalidBlock(h, InvalidTransaction);
      FailsAgain(p, DbOf(chain, registry), chain, n, h, TipMoved(chain, registry, n, h), error);
    }
  }

  lemma TipIsBack(chain: seq<Block>, registry: Registry, n: nat)
    requires n <= |chain| && chain != []
    ensures TipMoved(chain, registry, n, |chain|) == DbOf(chain, registry)
  {
  }

  lemma BatchFails(p: Params, db: Db, blocks: seq<Block>, k: nat, before: Db, error: IbdError)
    requires k < |blocks| && StoreBatch(p, db, blocks[..k]) == Batch(before, None)
    requires CheckStored(p, before, blocks[k]) == Some(error)
    ensures StoreBatch(p, db, blocks) == Batch(before, Some(error))
  {
    BatchStep(p, db, blocks, k);
  }

  lemma FailsAgain(p: Params, db: Db, chain: seq<Block>, n: nat, h: nat, before: Db, error: IbdError)
    requires n <= h < |chain| && StoreBatch(p, db, chain[n..h]) == Batch(before, None)
    requires CheckStored(p, before, chain[h]) == Some(error)
    ensures StoreBatch(p, db, chain[n..]) == Batch(before, Some(error))
  {
    assert chain[n..][..h - n] == chain[n..h] && chain[n..][h - n] == chain[h];
    BatchFails(p, db, chain[n..], h - n, before, error);
  }

  // ── The download, step by step ─────────────────────────────────────────────

  /**
   What happens after one request to a connected peer. What a peer answers may
   depend on the height asked for in any way, or not at all: nothing ties an
   answer to its request.
   */
  datatype Reaction =
    | Cancelled
    | SendFailed
    | TimedOut
    | Closed
    | BadFrame
    | Undecodable
    | OtherMessage
    | Answered(serve: nat -> seq<Block>)

  /** One attempt to use the next peer. */
  datatype Attempt = Refused | Opened(reactions: seq<Reaction>)

  /** `Waiting` is where a script ends; the code would still be waiting for the network. */
  datatype Outcome = NoPeers | InSync | PeersExhausted | Shutdown | Failed(error: IbdError) | Waiting

  /** One connection: `left` for the next peer, or `ended` with the whole download. `answers` only counts. */
  datatype Session = Session(
    db: Db, from: nat, timeouts: nat, answers: nat, left: bool, ended: Option<Outcome>)

  /** What a batch means for the session; one of less than a full request means that we are in sync. */
  function AfterAnswer(s: Session, blocks: seq<Block>, batch: Batch): Session
    requires blocks != []
  {
    var asked := s.(db := batch.db, timeouts := 0, answers := s.answers + 1);
    if batch.error.Some? then asked.(ended := Some(Failed(batch.error.value)))
    else
      asked.(from := blocks[|blocks| - 1].header.height + 1,
             ended := if |blocks| < BLOCKS_PER_REQUEST then Some(InSync) else None)
  }

  /** An empty answer means that we are in sync, too. */
  function TakeAnswer(p: Params, s: Session, blocks: seq<Block>): Session {
    if blocks == [] then s.(timeouts := 0, answers := s.answers + 1, ended := Some(InSync))
    else AfterAnswer(s, blocks, StoreBatch(p, s.db, blocks))
  }

  /** Timeouts are counted until a frame arrives, whatever it holds, or the third one ends the connection. */
  function ReactTo(p: Params, s: Session, reaction: Reaction): Session {
    match reaction
    case Cancelled => s.(ended := Some(Shutdown))
    case SendFailed | Closed | BadFrame => s.(left := true)
    case TimedOut =>
      if s.timeouts + 1 >= MAX_CONSECUTIVE_TIMEOUTS then s.(left := true, timeouts := 0)
      else s.(timeouts := s.timeouts + 1)
    case Undecodable | OtherMessage => s.(timeouts := 0)
    case Answered(serve) => TakeAnswer(p, s, serve(s.from))
  }

  function SessionAfter(p: Params, s: Session, reactions: seq<Reaction>, j: nat): Session
    requires j <= |reactions|
    decreases |reactions| - j
  {
    if j == |reactions| || s.left || s.ended.Some? then s
    else SessionAfter(p, ReactTo(p, s, reactions[j]), reactions, j + 1)
  }

  datatype Download = Download(session: Session, peer: nat, retries: nat)

  function Try(p: Params, d: Download, attempt: Attempt): Download {
    match attempt
    case Refused => d.(peer := d.peer + 1)
    case Opened(reactions) =>
      var s := SessionAfter(p, d.session, reactions, 0);
      if s.left then Download(s.(left := false), d.peer + 1, d.retries)
      else d.(session := if s.ended.Some? then s else s.(ended := Some(Waiting)))
  }

  /** All peers used: start over, a few times and only while nothing has come of it. */
  function Again(d: Download, first: nat): Download {
    if d.session.from != first || d.retries >= MAX_IBD_RETRIES
    then d.(session := d.session.(ended := Some(PeersExhausted)))
    else Download(d.session.(timeouts := 0), 0, d.retries + 1)
  }

  function DownloadAfter(p: Params, peers: nat, first: nat, script: seq<Attempt>, d: Download, k: nat): Download
    requires k <= |script|
    decreases |script| - k, MAX_IBD_RETRIES - d.retries, d.session.ended.None?
  {
    if d.session.ended.Some? then d
    else if d.peer >= peers then DownloadAfter(p, peers, first, script, Again(d, first), k)
    else if k == |script| then d.(session := d.session.(ended := Some(Waiting)))
    else DownloadAfter(p, peers, first, script, Try(p, d, script[k]), k + 1)
  }

  function FirstMissing(db: Db): nat {
    (if db.tip.Some? then db.tip.value.height else 0) + 1
  }

  function Starting(db: Db): Download {
    Download(Session(db, FirstMissing(db), 0, 0, false, None), 0, 0)
  }

  /** How one `Blocks` reply ends the download, if it does. */
  method HandleReply(node: Node, blocks: seq<Block>, from: nat, ghost s: Session)
    returns (ended: Option<Outcome>, next: nat)
    requires s.db == node.store.Model() && s.from == from && s.ended.None?
    modifies node.store
    ensures var after := TakeAnswer(node.config.params, s, blocks);
            node.store.Model() == after.db && next == after.from && ended == after.ended
  {
    if blocks == [] {
      return Some(InSync), from;
    }
    var error := ApplyBatch(node, blocks);
    if error.Some? {
      return Some(Failed(error.value)), from;
    }
    next := blocks[|blocks| - 1].header.height + 1;
    ended := if |blocks| < BLOCKS_PER_REQUEST then Some(InSync) else None;
  }

  /** One reaction: the connection is left for the next peer, the download ends, or the next request follows. */
  method React(node: Node, reaction: Reaction, from0: nat, timeouts0: nat, ghost s: Session)
    returns (left: bool, ended: Option<Outcome>, from: nat, timeouts: nat)
    requires s == Session(node.store.Model(), from0, timeouts0, s.answers, false, None)
    modifies node.store
    ensures var after := ReactTo(node.config.params, s, reaction);
            after == Session(node.store.Model(), from, timeouts, after.answers, left, ended)
  {
    left, ended, from, timeouts := false, None, from0, timeouts0;
    match reaction
    case Cancelled =>
      ended := Some(Shutdown);
    case SendFailed | Closed | BadFrame =>
      left := true;
    case TimedOut =>
      timeouts := timeouts + 1;
      if timeouts >= MAX_CONSECUTIVE_TIMEOUTS {
        left, timeouts := true, 0;
      }
    case Undecodable | OtherMessage =>
      timeouts := 0;
    case Answered(serve) =>
      timeouts := 0;
      ended, from := HandleReply(node, serve(from), from, s);
  }

  /** One connection: request after request until it breaks, times out three times, or the download ends. */
  method RunSession(node: Node, reactions: seq<Reaction>, from0: nat, timeouts0: nat, ghost s0: Session)
    returns (left: bool, ended: Option<Outcome>, from: nat, timeouts: nat)
    requires s0 == Session(node.store.Model(), from0, timeouts0, s0.answers, false, None)
    modifies node.store
    ensures var after := SessionAfter(node.config.params, s0, reactions, 0);
            after == Session(node.store.Model(), from, timeouts, after.answers, left, ended)
  {
    left, ended, from, timeouts := false, None, from0, timeouts0;
    ghost var p, s := node.config.params, s0;
    var j := 0;
    while j < |reactions| && !left && ended.None?
      invariant j <= |reactions|
      invariant s == Session(node.store.Model(), from, timeouts, s.answers, left, ended)
      invariant SessionAfter(p, s, reactions, j) == SessionAfter(p, s0, reactions, 0)
      decreases |reactions| - j
    {
      ghost var before := s;
      left, ended, from, timeouts := React(node, reactions[j], from, timeouts, before);
      s := ReactTo(p, before, reactions[j]);
      j := j + 1;
    }
  }

  /** The whole download over a script of attempts. */
  method RunIbd(node: Node, peers: nat, script: seq<Attempt>) returns (outcome: Outcome, ghost d: Download)
    modifies node.store
    ensures peers == 0 ==> outcome == NoPeers && node.store.Model() == old(node.store.Model())
    ensures var start := Starting(old(node.store.Model()));
            peers > 0 ==>
              && d == DownloadAfter(node.config.params, peers, start.session.from, script, start, 0)
              && d.session.db == node.store.Model() && d.session.ended == Some(outcome)
  {
    d := Starting(node.store.Model());
    if peers == 0 {
      return NoPeers, d;
    }
    var tip := node.store.GetTip();
    var first := (if tip.Some? then tip.value.height else 0) + 1;
    ghost var p, start := node.config.params, d;
    var ended: Option<Outcome>, left, from: nat, peer: nat, timeouts: nat, retries: nat, k :=
      None, false, first, 0, 0, 0, 0;
    while ended.None?
      invariant k <= |script|
      invariant d.session == Session(node.store.Model(), from, timeouts, d.session.answers, false, ended)
      invariant d.peer == peer && d.retries == retries
      invariant DownloadAfter(p, peers, first, script, d, k) == DownloadAfter(p, peers, first, script, start, 0)
      decreases ended.None?, |script| - k, MAX_IBD_RETRIES - retries
    {
      if peer >= peers {
        d := Again(d, first);
        if from != first || retries >= MAX_IBD_RETRIES {
          ended := Some(PeersExhausted);
        } else {
          retries := retries + 1;
          peer, timeouts := 0, 0;
        }
      } else if k == |script| {
        d := d.(session := d.session.(ended := Some(Waiting)));
        ended := Some(Waiting);
      } else {
        ghost var before := d;
        d := Try(p, before, script[k]);
        if script[k].Refused? {
          peer := peer + 1;
        } else {
          left, ended, from, timeouts := RunSession(node, script[k].reactions, from, timeouts, before.session);
          if left {
            peer := peer + 1;
          } else if ended.None? {
            ended := Some(Waiting);
          }
        }
        k := k + 1;
      }
    }
    outcome := ended.value;
  }
}
