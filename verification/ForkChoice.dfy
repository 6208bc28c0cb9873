/**
 Fork choice among rival blocks on one parent. Whatever order they arrive in and
 however often, the block with the lowest hash ends up as tip, provided the
 others do not spend what it spends; otherwise the first to arrive may keep it
 out for good. A hash covers the header only: blocks that share one list the same
 transactions, but one may list some of them again.
 */
module ForkChoice {
  import opened Types
  import opened Ledger
  import opened Merkle
  import opened Validators
  import opened Validation
  import opened Storage
  import opened Chain
  import opened Durability
  import opened Nodes

  /** Blocks arriving one after the other. */
  function Deliver(p: Params, db: Db, blocks: seq<Block>): Db {
    if blocks == [] then db
    else
      var before := Deliver(p, db, blocks[..|blocks| - 1]);
      DbAfter(before, Judge(p, before, blocks[|blocks| - 1]), blocks[|blocks| - 1])
  }

  /**
   A block that passes the check on `base` and makes outputs that are new there.
   Wrapping sums are not excluded; a block that makes an output once more is,
   because undoing it would lose that output.
   */
  ghost predicate Rival(p: Params, registry: Registry, base: seq<Block>, block: Block) {
    && base != [] && BlockVerdict(p, block, Last(base), Replay(base).utxo, registry) == Ok(())
    && FreshOuts(Replay(base).utxo, block.txs)
  }

  /** On a valid chain that is every block that is accepted without wrapping sums. */
  lemma AcceptedIsRival(p: Params, registry: Registry, base: seq<Block>, block: Block)
    requires GoodChain(p, registry, base) && AcceptedOn(p, registry, base, block)
    ensures Linked(base) && Rival(p, registry, base, block)
  {
    GoodChainLinks(p, registry, base);
    AcceptedIsFresh(p, registry, base, block);
  }

  /** The hash covers the header only, yet it determines a whole block that repeats no transaction. */
  lemma HashDeterminesRival(p: Params, registry: Registry, base: seq<Block>, a: Block, b: Block)
    requires Rival(p, registry, base, a) && Rival(p, registry, base, b) && BlockHash(a) == BlockHash(b)
    requires Distinct(a.txs) && Distinct(b.txs)
    ensures a == b
  {
    assert MerkleRoot(a.txs) == a.header.merkleRoot == MerkleRoot(b.txs);
    RootBindsDistinct(a.txs, b.txs);
  }

  predicate SameMembers(a: seq<Transaction>, b: seq<Transaction>) {
    (forall tx :: tx in a ==> tx in b) && (forall tx :: tx in b ==> tx in a)
  }

  /** The same state, but that a stored block may list its transactions another number of times. */
  ghost predicate SameUpToRepeats(a: Db, b: Db) {
    && a.blocksH.Keys == b.blocksH.Keys
    && (forall h :: h in a.blocksH ==>
          && a.blocksH[h].header == b.blocksH[h].header && a.blocksH[h].signature == b.blocksH[h].signature
          && SameMembers(a.blocksH[h].txs, b.blocksH[h].txs))
    && a == b.(blocksH := a.blocksH)
  }

  /** Blocks with one hash list and spend the same, and leave the same coins and records. */
  lemma TwinsAlike(p: Params, registry: Registry, base: seq<Block>, a: Block, b: Block)
    requires Linked(base)
    requires Rival(p, registry, base, a) && Rival(p, registry, base, b) && BlockHash(a) == BlockHash(b)
    ensures a.header == b.header && a.signature == b.signature && SameMembers(a.txs, b.txs)
    ensures TxsIns(a.txs) == TxsIns(b.txs) && Replay(base + [a]) == Replay(base + [b])
  {
    assert MerkleRoot(a.txs) == a.header.merkleRoot == MerkleRoot(b.txs);
    RootBindsMembers(a.txs, b.txs);
    SameMembersSpend(a.txs, b.txs);
    RivalFacts(p, registry, base, a);
    OrderIrrelevant(a.header.height, Replay(base), a.txs, b.txs);
    BlocksExtend(base, a);
    BlocksExtend(base, b);
  }

  lemma SameMembersSpend(a: seq<Transaction>, b: seq<Transaction>)
    requires SameMembers(a, b)
    ensures TxsIns(a) == TxsIns(b)
  {
    forall ref ensures ref in TxsIns(a) <==> ref in TxsIns(b) {
      TxsInsMember(a, ref);
      TxsInsMember(b, ref);
    }
  }

  lemma TwinsStoreAlike(p: Params, registry: Registry, base: seq<Block>, a: Block, b: Block)
    requires Linked(base)
    requires Rival(p, registry, base, a) && Rival(p, registry, base, b) && BlockHash(a) == BlockHash(b)
    ensures SameUpToRepeats(DbOf(base + [a], registry), DbOf(base + [b], registry))
  {
    TwinsAlike(p, registry, base, a, b);
    BlocksExtend(base, a);
    BlocksExtend(base, b);
    assert Last(base + [a]) == a && Last(base + [b]) == b;
  }

  lemma RivalFacts(p: Params, registry: Registry, base: seq<Block>, block: Block)
    requires Linked(base) && Rival(p, registry, base, block)
    ensures block.header.height == |base| && block.header.prevHash == BlockHash(Last(base))
    ensures BlockHash(block) !in IndexOf(base)
    ensures forall utxo :: BlockVerdict(p, block, Last(base), utxo, registry) == Ok(()) <==> AllValid(block.txs, utxo)
    ensures AllValid(block.txs, Replay(base).utxo) && NoInnerSpend(block.txs)
    ensures Linked(base + [block])
  {
    NextHashIsNew(base, block);
    ValidInputsExist(block.txs, Replay(base).utxo);
    LinkedMore(base, block);
  }

  /** The first rival to arrive becomes the tip. */
  lemma FirstArrives(p: Params, registry: Registry, base: seq<Block>, block: Block)
    requires Linked(base) && Rival(p, registry, base, block)
    ensures var db := DbOf(base, registry);
            && Judge(p, db, block) == Accepted
            && DbAfter(db, Judge(p, db, block), block) == DbOf(base + [block], registry)
  {
    RivalFacts(p, registry, base, block);
    ExtendStored(base, block, registry);
  }

  lemma TipIs(p: Params, registry: Registry, base: seq<Block>, tip: Block)
    requires Linked(base) && Rival(p, registry, base, tip)
    ensures var db := DbOf(base + [tip], registry);
            && TipOrZero(db) == Tip(|base|, BlockHash(tip)) && TipBlock(db) == Some(tip)
            && |base| - 1 in db.blocksH && db.blocksH[|base| - 1] == Last(base)
            && db.blocksIdx == IndexOf(base)[BlockHash(tip) := |base|]
            && |base| in db.blocksH
            && db.registry == registry && db.utxo == ApplyTxs(|base|, Replay(base), tip.txs).utxo
  {
    RivalFacts(p, registry, base, tip);
    BlocksExtend(base, tip);
  }

  /** When a rival of the present tip takes over: a lower hash, and no input shared with the tip. */
  ghost predicate Beats(p: Params, a: Block, b: Block) {
    p.digestValue(BlockHash(a)) < p.digestValue(BlockHash(b)) && TxsIns(a.txs) !! TxsIns(b.txs)
  }

  /** A block next to the tip and on its parent is judged by its hash first, then by the coins above the tip. */
  lemma JudgeBeside(p: Params, base: seq<Block>, tip: Block, db: Db, block: Block)
    requires Linked(base) && tip.header.height == |base| && Stores(db, base + [tip], db.registry)
    requires block.header.height == |base| && block.header.prevHash == BlockHash(Last(base))
    ensures var judgement, verdict := Judge(p, db, block), BlockVerdict(p, block, Last(base), db.utxo, db.registry);
            if p.digestValue(BlockHash(block)) < p.digestValue(BlockHash(tip))
            then judgement == Verdict(verdict, Reorged)
            else judgement in {AlreadyStored, KeptOurs}
  {
    NextHashIsNew(base, block);
    BlocksExtend(base, tip);
    assert Known(db, BlockHash(block)) <==> BlockHash(block) == BlockHash(tip);
  }

  lemma JudgeAgainstTip(p: Params, registry: Registry, base: seq<Block>, tip: Block, block: Block)
    requires Linked(base)
    requires Rival(p, registry, base, tip) && Rival(p, registry, base, block)
    ensures var judgement := Judge(p, DbOf(base + [tip], registry), block);
            && (judgement == Reorged <==> Beats(p, block, tip))
            && judgement != Accepted
  {
    RivalFacts(p, registry, base, block);
    RivalFacts(p, registry, base, tip);
    JudgeBeside(p, base, tip, DbOf(base + [tip], registry), block);
    PassesAboveTip(p, registry, base, tip, block);
  }

  lemma PassesAboveTip(p: Params, registry: Registry, base: seq<Block>, tip: Block, block: Block)
    requires Linked(base)
    requires Rival(p, registry, base, tip) && Rival(p, registry, base, block)
    ensures BlockVerdict(p, block, Last(base), DbOf(base + [tip], registry).utxo, registry) == Ok(())
            <==> TxsIns(block.txs) !! TxsIns(tip.txs)
  {
    TipIs(p, registry, base, tip);
    RivalFacts(p, registry, base, tip);
    RivalFacts(p, registry, base, block);
    RivalThroughTip(|base|, Replay(base), tip.txs, block.txs);
  }

  lemma RivalReplaced(p: Params, registry: Registry, base: seq<Block>, tip: Block, block: Block)
    requires Linked(base)
    requires Rival(p, registry, base, tip) && Rival(p, registry, base, block)
    ensures Reorg(DbOf(base + [tip], registry), tip, block) == DbOf(base + [block], registry)
  {
    RivalFacts(p, registry, base, tip);
    RivalFacts(p, registry, base, block);
    FreshLosesNothing(Replay(base).utxo, tip.txs);
    ReorgStored(base, tip, block, registry);
  }

  lemma NextArrives(p: Params, registry: Registry, base: seq<Block>, tip: Block, block: Block)
    requires Linked(base)
    requires Rival(p, registry, base, tip) && Rival(p, registry, base, block)
    ensures var db := DbOf(base + [tip], registry);
            DbAfter(db, Judge(p, db, block), block)
            == DbOf(base + [if Beats(p, block, tip) then block else tip], registry)
  {
    JudgeAgainstTip(p, registry, base, tip, block);
    TipIs(p, registry, base, tip);
    if Beats(p, block, tip) {
      RivalFacts(p, registry, base, block);
      RivalReplaced(p, registry, base, tip, block);
    }
  }

  // ── Any order, any repeats ─────────────────────────────────────────────────

  ghost predicate AllRivals(p: Params, registry: Registry, base: seq<Block>, blocks: seq<Block>) {
    forall b :: b in blocks ==> Rival(p, registry, base, b)
  }

  lemma OneMoreArrives(
    p: Params, registry: Registry, base: seq<Block>, blocks: seq<Block>, tip: Block, block: Block)
    requires Linked(base)
    requires Rival(p, registry, base, tip) && Rival(p, registry, base, block)
    requires Deliver(p, DbOf(base, registry), blocks) == DbOf(base + [tip], registry)
    ensures Deliver(p, DbOf(base, registry), blocks + [block])
         == DbOf(base + [if Beats(p, block, tip) then block else tip], registry)
  {
    assert (blocks + [block])[..|blocks|] == blocks;
    NextArrives(p, registry, base, tip, block);
  }

  lemma OneArrives(p: Params, registry: Registry, base: seq<Block>, block: Block)
    requires Linked(base) && Rival(p, registry, base, block)
    ensures Deliver(p, DbOf(base, registry), [block]) == DbOf(base + [block], registry)
  {
    assert [block][..0] == [];
    FirstArrives(p, registry, base, block);
  }

  /** The tip is always one of the blocks delivered, and of the best one's hash if that beats every other. */
  lemma {:induction false} DeliveryEnds(
    p: Params, registry: Registry, base: seq<Block>, blocks: seq<Block>, best: Block)
    returns (tip: Block)
    requires Linked(base) && blocks != [] && AllRivals(p, registry, base, blocks)
    ensures tip in blocks && Deliver(p, DbOf(base, registry), blocks) == DbOf(base + [tip], registry)
    ensures best in blocks && BeatsOthers(p, blocks, best) ==> BlockHash(tip) == BlockHash(best)
  {
    var init, last := blocks[..|blocks| - 1], blocks[|blocks| - 1];
    assert blocks == init + [last];
    if init == [] {
      OneArrives(p, registry, base, last);
      tip := last;
    } else {
      var before := DeliveryEnds(p, registry, base, init, best);
      OneMoreArrives(p, registry, base, init, before, last);
      tip := if Beats(p, last, before) then last else before;
      if best in blocks && BeatsOthers(p, blocks, best) {
        BestStays(p, init, before, last, best);
      }
    }
  }

  ghost predicate BeatsOthers(p: Params, blocks: seq<Block>, best: Block) {
    forall b :: b in blocks && BlockHash(b) != BlockHash(best) ==> Beats(p, best, b)
  }

  lemma BestStays(p: Params, init: seq<Block>, before: Block, last: Block, best: Block)
    requires best in init + [last] && BeatsOthers(p, init + [last], best) && before in init
    requires best in init && BeatsOthers(p, init, best) ==> BlockHash(before) == BlockHash(best)
    ensures BlockHash(if Beats(p, last, before) then last else before) == BlockHash(best)
  {
    var all := init + [last];
    assert last in all && before in all;
    assert BlockHash(last) != BlockHash(best) ==> Beats(p, best, last);
    assert BlockHash(before) != BlockHash(best) ==> Beats(p, best, before) && last == best;
  }

  /** Deliveries to a node that has a tip on `base`: a block that cannot displace it does not matter. */
  lemma {:induction false} TipAfter(p: Params, registry: Registry, base: seq<Block>, tip: Block, blocks: seq<Block>)
    returns (last: Block)
    requires Linked(base) && Rival(p, registry, base, tip) && AllRivals(p, registry, base, blocks)
    ensures last == tip || last in blocks
    ensures Deliver(p, DbOf(base + [tip], registry), blocks) == DbOf(base + [last], registry)
    ensures (forall b :: b in blocks ==> !Beats(p, b, tip)) ==> last == tip
  {
    if blocks == [] {
      last := tip;
    } else {
      var init, block := blocks[..|blocks| - 1], blocks[|blocks| - 1];
      assert blocks == init + [block];
      var before := TipAfter(p, registry, base, tip, init);
      NextArrives(p, registry, base, before, block);
      last := if Beats(p, block, before) then block else before;
    }
  }

  lemma {:induction false} DeliverInTwo(p: Params, db: Db, a: seq<Block>, b: seq<Block>)
    ensures Deliver(p, db, a + b) == Deliver(p, Deliver(p, db, a), b)
  {
    if b == [] {
      assert a + b == a;
    } else {
      DeliverInTwo(p, db, a, b[..|b| - 1]);
      assert (a + b)[..|a + b| - 1] == a + b[..|b| - 1];
    }
  }

  /**
   `other` arrives first, then blocks that cannot displace it, then others: none
   but those can become tip.
   */
  lemma KeptOut(
    p: Params, registry: Registry, base: seq<Block>, other: Block, twins: seq<Block>, rest: seq<Block>)
    returns (tip: Block)
    requires Linked(base) && Rival(p, registry, base, other)
    requires AllRivals(p, registry, base, twins) && AllRivals(p, registry, base, rest)
    requires forall b :: b in twins ==> !Beats(p, b, other)
    ensures tip == other || tip in rest
    ensures Deliver(p, DbOf(base, registry), [other] + twins + rest) == DbOf(base + [tip], registry)
  {
    DeliverInTwo(p, DbOf(base, registry), [other] + twins, rest);
    DeliverInTwo(p, DbOf(base, registry), [other], twins);
    OneArrives(p, registry, base, other);
    var kept := TipAfter(p, registry, base, other, twins);
    tip := TipAfter(p, registry, base, other, rest);
  }

  // ── Confluence ─────────────────────────────────────────────────────────────

  ghost predicate IsDeliveryOf(blocks: seq<Block>, rivals: set<Block>) {
    forall b :: b in blocks <==> b in rivals
  }

  lemma {:induction false} Enumerate(rivals: set<Block>) returns (blocks: seq<Block>)
    ensures IsDeliveryOf(blocks, rivals)
  {
    if rivals == {} {
      blocks := [];
    } else {
      var b :| b in rivals;
      var rest := Enumerate(rivals - {b});
      blocks := [b] + rest;
    }
  }

  ghost predicate AllRival(p: Params, registry: Registry, base: seq<Block>, rivals: set<Block>) {
    forall b :: b in rivals ==> Rival(p, registry, base, b)
  }

  /** One of the rivals, with a hash below every other hash among them. */
  ghost predicate IsBest(p: Params, rivals: set<Block>, best: Block) {
    && best in rivals
    && forall b :: b in rivals && BlockHash(b) != BlockHash(best) ==>
         p.digestValue(BlockHash(best)) < p.digestValue(BlockHash(b))
  }

  /** The best rival shares no input with any of another hash. */
  ghost predicate SharesNoInput(rivals: set<Block>, best: Block) {
    forall b :: b in rivals && BlockHash(b) != BlockHash(best) ==> TxsIns(best.txs) !! TxsIns(b.txs)
  }

  /** Every way of delivering the rivals leaves the state of the parent's chain with `best` on top, up to repeats. */
  ghost predicate Confluent(p: Params, registry: Registry, base: seq<Block>, rivals: set<Block>, best: Block) {
    forall blocks :: IsDeliveryOf(blocks, rivals) ==>
      SameUpToRepeats(Deliver(p, DbOf(base, registry), blocks), DbOf(base + [best], registry))
  }

  /** Any delivery ends with a block of the best hash on top. */
  lemma BestWins(p: Params, registry: Registry, base: seq<Block>, rivals: set<Block>, best: Block, blocks: seq<Block>)
    returns (tip: Block)
    requires Linked(base) && AllRival(p, registry, base, rivals)
    requires IsBest(p, rivals, best) && SharesNoInput(rivals, best) && IsDeliveryOf(blocks, rivals)
    ensures tip in rivals && BlockHash(tip) == BlockHash(best)
    ensures Deliver(p, DbOf(base, registry), blocks) == DbOf(base + [tip], registry)
  {
    assert best in blocks && BeatsOthers(p, blocks, best);
    tip := DeliveryEnds(p, registry, base, blocks, best);
  }

  lemma DisjointIsConfluent(p: Params, registry: Registry, base: seq<Block>, rivals: set<Block>, best: Block)
    requires Linked(base) && AllRival(p, registry, base, rivals)
    requires IsBest(p, rivals, best) && SharesNoInput(rivals, best)
    ensures Confluent(p, registry, base, rivals, best)
  {
    forall blocks | IsDeliveryOf(blocks, rivals)
      ensures SameUpToRepeats(Deliver(p, DbOf(base, registry), blocks), DbOf(base + [best], registry))
    {
      var tip := BestWins(p, registry, base, rivals, best, blocks);
      TwinsStoreAlike(p, registry, base, tip, best);
    }
  }

  /** A rival that conflicts with the best one keeps it out by arriving first. */
  lemma ConflictKeepsOut(
    p: Params, registry: Registry, base: seq<Block>, rivals: set<Block>, best: Block, other: Block)
    returns (blocks: seq<Block>, tip: Block)
    requires Linked(base) && AllRival(p, registry, base, rivals) && best in rivals
    requires other in rivals && BlockHash(other) != BlockHash(best) && !(TxsIns(best.txs) !! TxsIns(other.txs))
    ensures IsDeliveryOf(blocks, rivals) && BlockHash(tip) != BlockHash(best)
    ensures Deliver(p, DbOf(base, registry), blocks) == DbOf(base + [tip], registry)
  {
    var same := set b | b in rivals && BlockHash(b) == BlockHash(best);
    var twins := Enumerate(same);
    var rest := Enumerate(rivals - same);
    forall b | b in twins ensures !Beats(p, b, other) {
      TwinsAlike(p, registry, base, b, best);
    }
    tip := KeptOut(p, registry, base, other, twins, rest);
    blocks := [other] + twins + rest;
    OtherFirst(rivals, best, other, twins, rest);
  }

  lemma ConflictIsNotConfluent(
    p: Params, registry: Registry, base: seq<Block>, rivals: set<Block>, best: Block, other: Block)
    requires Linked(base) && AllRival(p, registry, base, rivals) && best in rivals
    requires other in rivals && BlockHash(other) != BlockHash(best) && !(TxsIns(best.txs) !! TxsIns(other.txs))
    ensures !Confluent(p, registry, base, rivals, best)
  {
    var blocks, tip := ConflictKeepsOut(p, registry, base, rivals, best, other);
    DifferentTips(base, tip, best, registry);
  }

  /** A delivery in which `other` comes first and every block of the best hash next. */
  lemma OtherFirst(rivals: set<Block>, best: Block, other: Block, twins: seq<Block>, rest: seq<Block>)
    requires other in rivals
    requires forall b :: b in twins <==> b in rivals && BlockHash(b) == BlockHash(best)
    requires forall b :: b in rest <==> b in rivals && BlockHash(b) != BlockHash(best)
    ensures IsDeliveryOf([other] + twins + rest, rivals)
  {
    var blocks := [other] + twins + rest;
    forall b ensures b in blocks <==> b in rivals {
      assert b in blocks <==> b == other || b in twins || b in rest;
    }
  }

  lemma DifferentTips(base: seq<Block>, a: Block, b: Block, registry: Registry)
    requires BlockHash(a) != BlockHash(b)
    ensures !SameUpToRepeats(DbOf(base + [a], registry), DbOf(base + [b], registry))
  {
    assert Last(base + [a]) == a && Last(base + [b]) == b;
  }

  /**
   Confluence, exactly: every order of delivery, with any repeats, ends in the
   state of the lowest-hash rival if and only if that rival shares no input with
   any rival of another hash.
   */
  lemma ConfluentIffDisjoint(p: Params, registry: Registry, base: seq<Block>, rivals: set<Block>, best: Block)
    requires Linked(base) && AllRival(p, registry, base, rivals) && IsBest(p, rivals, best)
    ensures Confluent(p, registry, base, rivals, best) <==> SharesNoInput(rivals, best)
  {
    if SharesNoInput(rivals, best) {
      DisjointIsConfluent(p, registry, base, rivals, best);
    } else {
      var other :| other in rivals && BlockHash(other) != BlockHash(best) && !(TxsIns(best.txs) !! TxsIns(other.txs));
      ConflictIsNotConfluent(p, registry, base, rivals, best, other);
    }
  }

  /**
   So two nodes that saw the same rivals, in whatever order, hold the same coins,
   records, index and tip; and the very same state if no rival repeats a
   transaction.
   */
  lemma NodesAgree(
    p: Params, registry: Registry, base: seq<Block>, rivals: set<Block>, best: Block, a: seq<Block>, b: seq<Block>)
    requires Linked(base) && AllRival(p, registry, base, rivals)
    requires IsBest(p, rivals, best) && SharesNoInput(rivals, best)
    requires IsDeliveryOf(a, rivals) && IsDeliveryOf(b, rivals)
    ensures SameUpToRepeats(Deliver(p, DbOf(base, registry), a), Deliver(p, DbOf(base, registry), b))
    ensures (forall r :: r in rivals ==> Distinct(r.txs)) ==>
              && Deliver(p, DbOf(base, registry), a) == Deliver(p, DbOf(base, registry), b)
              && StoredChain(Deliver(p, DbOf(base, registry), a)) == base + [best]
  {
    var x := BestWins(p, registry, base, rivals, best, a);
    var y := BestWins(p, registry, base, rivals, best, b);
    TwinsStoreAlike(p, registry, base, x, y);
    if forall r :: r in rivals ==> Distinct(r.txs) {
      HashDeterminesRival(p, registry, base, x, best);
      HashDeterminesRival(p, registry, base, y, best);
      StoredChainOf(base + [best], registry);
    }
  }
}
