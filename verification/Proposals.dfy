/**
 What the slot ticker proposes, other nodes accept.
 */
module Proposals {
  import opened Types
  import opened Election
  import opened Validators
  import opened Validation
  import Storage
  import opened Chain
  import opened Nodes

  lemma NoWrap(n: int)
    requires I64_MIN <= n <= I64_MAX
    ensures WrapI64(n) == n
  {
  }

  lemma ProductBelow(a: nat, b: nat, d: nat)
    requires a <= b
    ensures a * d <= b * d
  {
  }

  /**
   An earlier slot ends no later than the present slot begins, casts and
   unchecked products included.
   */
  lemma EarlierSlotEnds(p: Params, now: I64, slot: U64)
    requires ClockOk(p, now) && slot < SlotOf(p, now)
    ensures SlotEnd(p, slot) <= now
  {
    var current, d := SlotOf(p, now), p.slotDuration;
    StartOfSlot(now, d);
    ProductBelow(slot + 1, current, d);
    NoWrap(slot);
    NoWrap(slot + 1);
    NoWrap(d);
    NoWrap((slot + 1) * d);
  }

  lemma StartOfSlot(now: nat, d: nat)
    requires d > 0
    ensures now / d * d <= now
  {
    assert now == now / d * d + now % d;
  }

  /** The elected validator's key is this node's key. */
  lemma ElectedKey(config: Config, registry: Registry, slot: U64, prevHash: Digest)
    requires KeyedByAddress(registry) && KeyMatches(config)
    requires var e := Elect(config.params, slot, prevHash, ActiveList(registry, slot));
             e.Some? && e.value.address == config.myAddress
    ensures Elect(config.params, slot, prevHash, ActiveList(registry, slot)).value.pubkey
         == VerifyingKey(config.mySigningKey)
  {
    var list := ActiveList(registry, slot);
    ElectionIsTotal(config.params, slot, prevHash, list);
    ActiveListIs(registry, slot);
  }

  /** Whatever chain it stands on, the header of a proposal fails at most for a parent dated later. */
  lemma ProposedHeaderIs(
    config: Config, db: Storage.Db, parent: Block, now: I64, txs: seq<Transaction>, block: Block)
    requires KeyedByAddress(db.registry) && KeyMatches(config) && ClockOk(config.params, now)
    requires db.tip == Some(Storage.Tip(parent.header.height, BlockHash(parent))) && TickSlot(config, db, now).Some?
    requires block == BuildBlock(config, db.tip.value, TickSlot(config, db, now).value, now, txs)
    ensures HeaderVerdict(config.params, block, parent, ActiveList(db.registry, block.header.slot))
         == if now < parent.header.timestamp then Err(BadTimestamp) else Ok(())
  {
    ElectedKey(config, db.registry, block.header.slot, BlockHash(parent));
  }

  /**
   The header checks pass on any parent but a genesis block dated in the future:
   the slot guard and the parent's own slot bound order the timestamps, whatever
   the clock did in between.
   */
  lemma ProposedHeaderPasses(
    config: Config, registry: Registry, chain: seq<Block>, now: I64, txs: seq<Transaction>, block: Block)
    requires GoodChain(config.params, registry, chain) && KeyedByAddress(registry) && KeyMatches(config)
    requires ClockOk(config.params, now)
    requires TickSlot(config, DbOf(chain, registry), now).Some?
    requires block == BuildBlock(
      config, TipOf(chain).value, TickSlot(config, DbOf(chain, registry), now).value, now, txs)
    ensures HeaderVerdict(config.params, block, Last(chain), ActiveList(registry, block.header.slot))
         == if |chain| == 1 && now < chain[0].header.timestamp then Err(BadTimestamp) else Ok(())
  {
    LastHeight(config.params, registry, chain);
    ProposedHeaderIs(config, DbOf(chain, registry), Last(chain), now, txs, block);
    if |chain| > 1 {
      AcceptedInSlot(config.params, registry, Prefix(chain), Last(chain));
      EarlierSlotEnds(config.params, now, Last(chain).header.slot);
    }
  }

  lemma AcceptedInSlot(p: Params, registry: Registry, chain: seq<Block>, block: Block)
    requires AcceptedOn(p, registry, chain, block)
    ensures block.header.timestamp < SlotEnd(p, block.header.slot)
  {
  }

  /** A proposed block is valid exactly when its transactions are (and a genesis parent is not dated later). */
  lemma ProposedBlockPasses(
    config: Config, registry: Registry, chain: seq<Block>, now: I64, txs: seq<Transaction>, block: Block)
    requires GoodChain(config.params, registry, chain) && KeyedByAddress(registry) && KeyMatches(config)
    requires ClockOk(config.params, now)
    requires TickSlot(config, DbOf(chain, registry), now).Some?
    requires block == BuildBlock(
      config, TipOf(chain).value, TickSlot(config, DbOf(chain, registry), now).value, now, txs)
    ensures BlockVerdict(config.params, block, Last(chain), Replay(chain).utxo, registry) == Ok(())
            <==> AllValid(txs, Replay(chain).utxo) && (|chain| == 1 ==> chain[0].header.timestamp <= now)
  {
    ProposedHeaderPasses(config, registry, chain, now, txs, block);
  }

  lemma SlotHoldsNow(now: nat, d: nat)
    requires d > 0
    ensures now / d * d <= now < (now / d + 1) * d <= now + d
  {
    assert now == now / d * d + now % d;
    assert (now / d + 1) * d == now / d * d + d;
  }

  /** The present slot ends after now, unless the product wraps around; then the end is a negative number. */
  lemma ThisSlotEnds(p: Params, now: I64, end: nat)
    requires ClockOk(p, now) && end == (SlotOf(p, now) + 1) * p.slotDuration
    ensures SlotOf(p, now) * p.slotDuration <= now < end
    ensures if end <= I64_MAX then SlotEnd(p, SlotOf(p, now)) == end else SlotEnd(p, SlotOf(p, now)) < 0
  {
    var slot, d := SlotOf(p, now), p.slotDuration;
    SlotHoldsNow(now, d);
    NoWrap(slot);
    NoWrap(d);
    if slot < I64_MAX {
      NoWrap(slot + 1);
      assert SlotEnd(p, slot) == WrapI64(end);
      WrapAbove(end);
    } else {
      WrapAbove(I64_MAX + 1);
      OneSecondSlots(now, d);
    }
  }

  /** Only with slots of one second, at the last second the clock can tell. */
  lemma OneSecondSlots(now: nat, d: nat)
    requires 0 < d && now <= I64_MAX && now / d >= I64_MAX
    ensures d == 1 && now == I64_MAX
  {
    SlotHoldsNow(now, d);
  }

  lemma WrapAbove(n: nat)
    requires n <= 2 * I64_MAX
    ensures WrapI64(n) == if n <= I64_MAX then n else n - 0x1_0000_0000_0000_0000
  {
  }

  /**
   When a node proposes, and for which slot: the one that holds the present
   second, if its end fits the clock and is more than a second off, the tip is of
   an earlier slot, and this node is the one elected on that tip.
   */
  lemma ProposesIff(config: Config, db: Storage.Db, now: I64)
    requires ClockOk(config.params, now)
    ensures var p, slot := config.params, SlotOf(config.params, now);
            var end := (slot + 1) * p.slotDuration;
            && slot * p.slotDuration <= now < end
            && TickSlot(config, db, now) in {None, Some(slot)}
            && (TickSlot(config, db, now) == Some(slot) <==>
                  && end <= I64_MAX && end - now > 1 && db.tip.Some?
                  && (db.tip.value.height in db.blocksH ==> db.blocksH[db.tip.value.height].header.slot < slot)
                  && var elected := Elect(p, slot, db.tip.value.hash, ActiveList(db.registry, slot));
                     elected.Some? && elected.value.address == config.myAddress)
  {
    var p, slot := config.params, SlotOf(config.params, now);
    var end := (slot + 1) * p.slotDuration;
    ThisSlotEnds(p, now, end);
    if end <= I64_MAX {
      NoWrap(end - now);
    }
  }

  /** A validator that is alone proposes in every slot that the tip leaves open and that has more than a second left. */
  lemma SoleValidatorProposes(config: Config, db: Storage.Db, now: I64, v: Validator)
    requires ClockOk(config.params, now)
    requires var slot := SlotOf(config.params, now);
             && (slot + 1) * config.params.slotDuration <= I64_MAX
             && (slot + 1) * config.params.slotDuration - now > MIN_PROPOSE_WINDOW_SECS
             && ActiveList(db.registry, slot) == [v]
             && db.tip.Some? && db.tip.value.height in db.blocksH
             && db.blocksH[db.tip.value.height].header.slot < slot
    requires v.address == config.myAddress && v.stake > 0
    ensures TickSlot(config, db, now) == Some(SlotOf(config.params, now))
  {
    var p, slot := config.params, SlotOf(config.params, now);
    ProposesIff(config, db, now);
    OneIsElected(p, slot, db.tip.value.hash, v);
  }

  lemma OneIsElected(p: Params, slot: U64, prevHash: Digest, v: Validator)
    requires v.stake > 0
    ensures Elect(p, slot, prevHash, [v]) == Some(v)
  {
    assert [v][..0] == [];
    assert StakeSum([v]) == v.stake;
    ElectionIsTotal(p, slot, prevHash, [v]);
  }
}
