/**
 The value held by the unspent outputs, in all and per address, and how blocks
 and whole chains change it.
 */
module Conservation {
  import opened Types
  import opened Ledger
  import opened Merkle
  import Validators
  import opened Validation
  import opened Chain

  /** Total amount of the outputs in a UTXO map, as an exact number. */
  ghost function Value(utxo: Utxo): nat {
    if utxo == map[] then 0
    else
      var ref :| ref in utxo;
      utxo[ref].amount + Value(utxo - {ref})
  }

  /** Any entry can be taken out first. */
  lemma {:induction false} ValueWithout(utxo: Utxo, ref: TxOutRef)
    requires ref in utxo
    ensures Value(utxo) == utxo[ref].amount + Value(utxo - {ref})
  {
    var first :| first in utxo && Value(utxo) == utxo[first].amount + Value(utxo - {first});
    if first != ref {
      ValueWithout(utxo - {first}, ref);
      ValueWithout(utxo - {ref}, first);
      assert utxo - {first} - {ref} == utxo - {ref} - {first};
    }
  }

  lemma {:induction false} ValueOfUnion(a: Utxo, b: Utxo)
    requires a.Keys !! b.Keys
    ensures Value(a + b) == Value(a) + Value(b)
    decreases |b|
  {
    if b == map[] {
      assert a + b == a;
    } else {
      var ref :| ref in b;
      ValueOfUnion(a, b - {ref});
      ValueWithout(b, ref);
      UnionWithout(a, b, ref);
    }
  }

  lemma UnionWithout(a: Utxo, b: Utxo, ref: TxOutRef)
    requires ref in b && ref !in a
    ensures Value(a + b) == b[ref].amount + Value(a + (b - {ref}))
  {
    ValueWithout(a + b, ref);
    assert a + b - {ref} == a + (b - {ref});
  }

  lemma PartUnion(utxo: Utxo, a: set<TxOutRef>, b: set<TxOutRef>)
    ensures Value(Part(utxo, a + b)) + Value(Part(utxo, a * b)) == Value(Part(utxo, a)) + Value(Part(utxo, b))
  {
    ValueOfUnion(Part(utxo, a), Part(utxo, b - a));
    assert Part(utxo, a) + Part(utxo, b - a) == Part(utxo, a + b);
    ValueOfUnion(Part(utxo, b - a), Part(utxo, a * b));
    assert Part(utxo, b - a) + Part(utxo, a * b) == Part(utxo, b);
  }

  lemma PartOne(utxo: Utxo, ref: TxOutRef)
    ensures Value(Part(utxo, {ref})) == if ref in utxo then utxo[ref].amount else 0
  {
    if ref in utxo {
      ValueWithout(Part(utxo, {ref}), ref);
      assert Part(utxo, {ref}) - {ref} == map[];
    } else {
      assert Part(utxo, {ref}) == map[];
    }
  }

  ghost predicate AmountsPositive(utxo: Utxo) {
    forall ref :: ref in utxo ==> utxo[ref].amount > 0
  }

  lemma OverlapWorthNothing(utxo: Utxo, a: set<TxOutRef>, b: set<TxOutRef>)
    requires a <= utxo.Keys && b <= utxo.Keys
    ensures a !! b ==> Value(Part(utxo, a * b)) == 0
    ensures AmountsPositive(utxo) && Value(Part(utxo, a * b)) == 0 ==> a !! b
  {
    if a !! b {
      assert Part(utxo, a * b) == map[];
    } else {
      var ref :| ref in a && ref in b;
      ValueWithout(Part(utxo, a * b), ref);
    }
  }

  // ── Inputs, with and without repeats ───────────────────────────────────────

  ghost predicate DistinctInputs(inputs: seq<TxInput>) {
    inputs == [] ||
    (DistinctInputs(inputs[..|inputs| - 1]) && inputs[|inputs| - 1].outRef !in InRefs(inputs[..|inputs| - 1]))
  }

  lemma {:induction false} PairwiseDistinct(inputs: seq<TxInput>)
    requires forall i, j :: 0 <= i < j < |inputs| ==> inputs[i].outRef != inputs[j].outRef
    ensures DistinctInputs(inputs)
  {
    if inputs != [] {
      var init := inputs[..|inputs| - 1];
      PairwiseDistinct(init);
      InRefsMember(init, inputs[|inputs| - 1].outRef);
    }
  }

  /** Counting every mention of an output counts at least its value once; exactly once when none repeats. */
  lemma {:induction false} MentionsWorth(utxo: Utxo, inputs: seq<TxInput>)
    requires InRefs(inputs) <= utxo.Keys
    ensures InTotal(inputs, utxo) >= Value(Part(utxo, InRefs(inputs)))
    ensures DistinctInputs(inputs) ==> InTotal(inputs, utxo) == Value(Part(utxo, InRefs(inputs)))
    ensures AmountsPositive(utxo) && InTotal(inputs, utxo) == Value(Part(utxo, InRefs(inputs)))
            ==> DistinctInputs(inputs)
  {
    if inputs == [] {
      assert Part(utxo, {}) == map[];
    } else {
      var init, ref := inputs[..|inputs| - 1], inputs[|inputs| - 1].outRef;
      MentionsWorth(utxo, init);
      PartUnion(utxo, InRefs(init), {ref});
      PartOne(utxo, ref);
      OverlapWorthNothing(utxo, InRefs(init), {ref});
    }
  }

  /** No input is named twice, inside a transaction or across the block. The validators do not check this. */
  ghost predicate InputsDistinct(txs: seq<Transaction>) {
    txs == [] ||
    var init, last := txs[..|txs| - 1], txs[|txs| - 1];
    InputsDistinct(init) && DistinctInputs(last.inputs) && Ins(last) !! TxsIns(init)
  }

  function BlockIn(txs: seq<Transaction>, utxo: Utxo): nat {
    if txs == [] then 0 else BlockIn(txs[..|txs| - 1], utxo) + InTotal(txs[|txs| - 1].inputs, utxo)
  }

  function BlockOut(txs: seq<Transaction>): nat {
    if txs == [] then 0 else BlockOut(txs[..|txs| - 1]) + OutTotal(txs[|txs| - 1].outputs)
  }

  lemma {:induction false} BlockMentionsWorth(utxo: Utxo, txs: seq<Transaction>)
    requires TxsIns(txs) <= utxo.Keys
    ensures BlockIn(txs, utxo) >= Value(Part(utxo, TxsIns(txs)))
    ensures InputsDistinct(txs) ==> BlockIn(txs, utxo) == Value(Part(utxo, TxsIns(txs)))
    ensures AmountsPositive(utxo) && BlockIn(txs, utxo) == Value(Part(utxo, TxsIns(txs))) ==> InputsDistinct(txs)
  {
    if txs == [] {
      assert Part(utxo, {}) == map[];
    } else {
      var init, last := txs[..|txs| - 1], txs[|txs| - 1];
      BlockMentionsWorth(utxo, init);
      InRefsAreIns(last);
      MentionsWorth(utxo, last.inputs);
      PartUnion(utxo, TxsIns(init), Ins(last));
      OverlapWorthNothing(utxo, TxsIns(init), Ins(last));
    }
  }

  // ── Outputs ────────────────────────────────────────────────────────────────

  lemma {:induction false} OutsUpToWorth(tx: Transaction, n: nat)
    requires n <= |tx.outputs|
    ensures Value(OutsUpTo(tx, n)) == OutTotal(tx.outputs[..n])
  {
    if n > 0 {
      var ref, output := TxOutRef(TxHash(tx), n - 1), tx.outputs[n - 1];
      OutsUpToWorth(tx, n - 1);
      OutsUpToStep(tx, n - 1);
      ValueWithout(OutsUpTo(tx, n), ref);
      assert OutsUpTo(tx, n) - {ref} == OutsUpTo(tx, n - 1);
      assert tx.outputs[..n][..n - 1] == tx.outputs[..n - 1];
    } else {
      assert OutsUpTo(tx, 0) == map[];
    }
  }

  lemma OutsWorth(tx: Transaction)
    ensures Value(Outs(tx)) == OutTotal(tx.outputs)
  {
    OutsUpToWorth(tx, |tx.outputs|);
    OutsUpToAll(tx);
    assert tx.outputs[..|tx.outputs|] == tx.outputs;
  }

  /** The outputs a list of transactions creates. */
  function NewOuts(txs: seq<Transaction>): Utxo {
    if txs == [] then map[] else NewOuts(txs[..|txs| - 1]) + Outs(txs[|txs| - 1])
  }

  lemma {:induction false} NewOutsAre(txs: seq<Transaction>, ref: TxOutRef)
    ensures ref in NewOuts(txs) <==> ref in TxsOuts(txs)
    ensures ref in NewOuts(txs) ==> IsOutRef(ref) && NewOuts(txs)[ref] == Named(ref)
  {
    if txs != [] {
      NewOutsAre(txs[..|txs| - 1], ref);
      OutsNamed(txs[|txs| - 1], ref);
    }
  }

  /** Repeated transactions collapse into one: together they create less than their outputs add up to. */
  lemma {:induction false} NewOutsWorth(txs: seq<Transaction>)
    ensures Value(NewOuts(txs)) <= BlockOut(txs)
    ensures Distinct(txs) ==> Value(NewOuts(txs)) == BlockOut(txs)
    ensures (forall tx :: tx in txs ==> OutTotal(tx.outputs) > 0) && Value(NewOuts(txs)) == BlockOut(txs)
            ==> Distinct(txs)
  {
    if txs != [] {
      var init, last := txs[..|txs| - 1], txs[|txs| - 1];
      assert txs == init + [last];
      NewOutsWorth(init);
      OutsWorth(last);
      if last in init {
        RepeatAddsNothing(init, last);
      } else {
        NewcomerIsDisjoint(init, last);
        ValueOfUnion(NewOuts(init), Outs(last));
      }
    }
  }

  lemma RepeatAddsNothing(txs: seq<Transaction>, tx: Transaction)
    requires tx in txs
    ensures NewOuts(txs) + Outs(tx) == NewOuts(txs)
  {
    forall ref | ref in Outs(tx) ensures ref in NewOuts(txs) && NewOuts(txs)[ref] == Outs(tx)[ref] {
      OutsNamed(tx, ref);
      TxsOutsMember(txs, ref);
      NewOutsAre(txs, ref);
    }
  }

  lemma NewcomerIsDisjoint(txs: seq<Transaction>, tx: Transaction)
    requires tx !in txs
    ensures NewOuts(txs).Keys !! Outs(tx).Keys
  {
    forall ref | ref in NewOuts(txs) ensures ref !in Outs(tx) {
      NewOutsAre(txs, ref);
      TxsOutsMember(txs, ref);
      OutsNamed(tx, ref);
    }
  }

  // ── One block ──────────────────────────────────────────────────────────────

  lemma CoinsAfter(height: nat, c: Coins, txs: seq<Transaction>)
    requires NoInnerSpend(txs)
    ensures ApplyTxs(height, c, txs).utxo == c.utxo - TxsIns(txs) + NewOuts(txs)
  {
    var after, made := ApplyTxs(height, c, txs).utxo, c.utxo - TxsIns(txs) + NewOuts(txs);
    forall ref
      ensures ref in after <==> ref in made
      ensures ref in after ==> after[ref] == made[ref]
    {
      AppliedRef(height, c, txs, ref);
      NewOutsAre(txs, ref);
    }
  }

  /** The total after a block, whatever it repeats: every spent output leaves once, every new one enters once. */
  lemma ValueAfter(height: nat, c: Coins, txs: seq<Transaction>)
    requires NoInnerSpend(txs) && FreshOuts(c.utxo, txs)
    ensures Value(ApplyTxs(height, c, txs).utxo) + Value(Part(c.utxo, TxsIns(txs)))
         == Value(c.utxo) + Value(NewOuts(txs))
  {
    CoinsAfter(height, c, txs);
    var kept := c.utxo - TxsIns(txs);
    NewOutsMissing(c.utxo, txs);
    ValueOfUnion(kept, NewOuts(txs));
    KeptAndGone(c.utxo, TxsIns(txs));
  }

  lemma NewOutsMissing(utxo: Utxo, txs: seq<Transaction>)
    requires FreshOuts(utxo, txs)
    ensures NewOuts(txs).Keys !! utxo.Keys
  {
    forall ref | ref in NewOuts(txs) ensures ref !in utxo {
      NewOutsAre(txs, ref);
    }
  }

  lemma KeptAndGone(utxo: Utxo, refs: set<TxOutRef>)
    ensures Value(utxo) == Value(utxo - refs) + Value(Part(utxo, refs))
  {
    ValueOfUnion(utxo - refs, Part(utxo, refs));
    assert utxo - refs + Part(utxo, refs) == utxo;
  }

  /** With distinct inputs no transaction can be in the block twice. */
  lemma {:induction false} DistinctInputsDistinctTxs(txs: seq<Transaction>, utxo: Utxo)
    requires AllValid(txs, utxo) && NoOverflows(txs) && InputsDistinct(txs)
    ensures Distinct(txs)
  {
    if txs != [] {
      var init, last := txs[..|txs| - 1], txs[|txs| - 1];
      assert txs == init + [last];
      DistinctInputsDistinctTxs(init, utxo);
      NeedsInput(last, utxo);
      if last in init {
        TxInsWithin(init, last);
        assert false;
      }
    }
  }

  /** Each output inserted finds its place in the map free. */
  ghost predicate NeverOverwrites(height: nat, c: Coins, txs: seq<Transaction>) {
    txs == [] ||
    var init, last := txs[..|txs| - 1], txs[|txs| - 1];
    NeverOverwrites(height, c, init) && Outs(last).Keys !! ApplyTxs(height, c, init).utxo.Keys - Ins(last)
  }

  /** With outputs new to the coins before the block, only a transaction that is in it twice overwrites anything. */
  lemma {:induction false} OverwritesIffRepeated(height: nat, c: Coins, txs: seq<Transaction>)
    requires AllValid(txs, c.utxo) && FreshOuts(c.utxo, txs)
    ensures NeverOverwrites(height, c, txs) <==> Distinct(txs)
  {
    if txs != [] {
      var init, last := txs[..|txs| - 1], txs[|txs| - 1];
      assert txs == init + [last];
      OverwritesIffRepeated(height, c, init);
      LastOverwrites(height, c, init, last);
      assert Distinct(txs) <==> Distinct(init) && last !in init;
    }
  }

  lemma LastOverwrites(height: nat, c: Coins, init: seq<Transaction>, last: Transaction)
    requires AllValid(init + [last], c.utxo) && FreshOuts(c.utxo, init) && Outs(last).Keys !! c.utxo.Keys
    ensures Outs(last).Keys !! ApplyTxs(height, c, init).utxo.Keys - Ins(last) <==> last !in init
  {
    var utxo := ApplyTxs(height, c, init).utxo;
    assert ValidTx(last, c.utxo) && AllValid(init, c.utxo) by {
      assert last in init + [last];
      assert forall tx :: tx in init ==> tx in init + [last];
    }
    ValidInputsExist(init, c.utxo);
    forall ref | ref in Outs(last) ensures ref in utxo.Keys - Ins(last) <==> last in init {
      AppliedRef(height, c, init, ref);
      TxsOutsMember(init, ref);
      OutsNamed(last, ref);
    }
    assert TxOutRef(TxHash(last), 0) in Outs(last);
  }

  /** So distinct inputs rule it out. */
  lemma AcceptedNeverOverwrites(p: Params, registry: Validators.Registry, chain: seq<Block>, block: Block)
    requires GoodChain(p, registry, chain) && AcceptedOn(p, registry, chain, block) && InputsDistinct(block.txs)
    ensures NeverOverwrites(|chain|, Replay(chain), block.txs)
  {
    AcceptedIsFresh(p, registry, chain, block);
    AcceptedFacts(p, registry, chain, block);
    DistinctInputsDistinctTxs(block.txs, Replay(chain).utxo);
    OverwritesIffRepeated(|chain|, Replay(chain), block.txs);
  }

  lemma {:induction false} OutWithinIn(txs: seq<Transaction>, utxo: Utxo)
    requires AllValid(txs, utxo) && NoOverflows(txs)
    ensures BlockOut(txs) <= BlockIn(txs, utxo)
  {
    if txs != [] {
      var init, last := txs[..|txs| - 1], txs[|txs| - 1];
      assert txs == init + [last];
      OutWithinIn(init, utxo);
      assert ValidTx(last, utxo) && NoOverflow(last);
    }
  }

  /**
   A block that repeats no transaction moves the total by exactly its outputs
   minus its inputs if, and with positive amounts only if, its inputs are
   distinct.
   */
  lemma BlockMovesValue(height: nat, c: Coins, txs: seq<Transaction>)
    requires AllValid(txs, c.utxo) && FreshOuts(c.utxo, txs) && Distinct(txs)
    ensures var exact := Value(ApplyTxs(height, c, txs).utxo) + BlockIn(txs, c.utxo) == Value(c.utxo) + BlockOut(txs);
            && (InputsDistinct(txs) ==> exact)
            && (AmountsPositive(c.utxo) && exact ==> InputsDistinct(txs))
  {
    ValidInputsExist(txs, c.utxo);
    ValueAfter(height, c, txs);
    NewOutsWorth(txs);
    BlockMentionsWorth(c.utxo, txs);
  }

  // ── A rival checked above the tip it replaces ──────────────────────────────

  /** What `rival` takes of the outputs that `tip` makes. They are gone once the tip is rolled back. */
  function Taken(height: nat, c: Coins, tip: seq<Transaction>, rival: seq<Transaction>): Utxo {
    Part(ApplyTxs(height, c, tip).utxo, TxsIns(rival) * TxsOuts(tip))
  }

  lemma PartSplits(above: Utxo, below: Utxo, refs: set<TxOutRef>, made: set<TxOutRef>)
    requires refs <= above.Keys
    requires forall ref :: ref in refs ==>
      (ref in below <==> ref !in made) && (ref in below ==> below[ref] == above[ref])
    ensures Value(Part(above, refs)) == Value(Part(below, refs)) + Value(Part(above, refs * made))
  {
    ValueOfUnion(Part(below, refs), Part(above, refs * made));
    assert Part(above, refs) == Part(below, refs) + Part(above, refs * made);
  }

  /** Above the tip the rival's inputs are those on the parent and those the tip made. */
  lemma InputsAboveTip(height: nat, c: Coins, tip: seq<Transaction>, rival: seq<Transaction>)
    requires FreshOuts(c.utxo, tip) && AllValid(tip, c.utxo)
    requires AllValid(rival, ApplyTxs(height, c, tip).utxo)
    ensures var above := ApplyTxs(height, c, tip).utxo;
            Value(Part(above, TxsIns(rival)))
            == Value(Part(c.utxo, TxsIns(rival))) + Value(Taken(height, c, tip, rival))
  {
    var above := ApplyTxs(height, c, tip).utxo;
    ValidInputsExist(tip, c.utxo);
    ValidInputsExist(rival, above);
    forall ref | ref in TxsIns(rival)
      ensures (ref in c.utxo <==> ref !in TxsOuts(tip)) && (ref in c.utxo ==> c.utxo[ref] == above[ref])
    {
      AppliedRef(height, c, tip, ref);
    }
    PartSplits(above, c.utxo, TxsIns(rival), TxsOuts(tip));
  }

  /** The outputs of valid transactions are worth something. */
  lemma TakenWorth(height: nat, c: Coins, tip: seq<Transaction>, rival: seq<Transaction>)
    requires FreshOuts(c.utxo, tip) && AllValid(tip, c.utxo)
    ensures Value(Taken(height, c, tip, rival)) == 0 <==> TxsIns(rival) !! TxsOuts(tip)
  {
    var taken := Taken(height, c, tip, rival);
    ValidInputsExist(tip, c.utxo);
    if TxsIns(rival) !! TxsOuts(tip) {
      assert taken == map[];
    } else {
      var ref :| ref in TxsIns(rival) && ref in TxsOuts(tip);
      AppliedRef(height, c, tip, ref);
      TxsOutsMember(tip, ref);
      assert ValidTx(ref.txHash.tx, c.utxo);
      assert taken[ref].amount > 0;
      ValueWithout(taken, ref);
    }
  }

  /**
   A rival that passed above the tip and is then applied on the parent mints what
   it took from the tip, because missing inputs are skipped. So the total moves
   by outputs minus inputs exactly when the rival takes nothing.
   */
  lemma RivalMints(height: nat, c: Coins, tip: seq<Transaction>, rival: seq<Transaction>)
    requires FreshOuts(c.utxo, tip) && AllValid(tip, c.utxo)
    requires AllValid(rival, ApplyTxs(height, c, tip).utxo) && NoOverflows(rival) && InputsDistinct(rival)
    requires FreshOuts(c.utxo, rival) && NoInnerSpend(rival)
    ensures var above, after := ApplyTxs(height, c, tip).utxo, ApplyTxs(height, c, rival).utxo;
            && Value(after) + BlockIn(rival, above)
               == Value(c.utxo) + BlockOut(rival) + Value(Taken(height, c, tip, rival))
            && (Value(after) + BlockIn(rival, above) == Value(c.utxo) + BlockOut(rival)
                <==> TxsIns(rival) !! TxsOuts(tip))
  {
    var above := ApplyTxs(height, c, tip).utxo;
    ValidInputsExist(rival, above);
    DistinctInputsDistinctTxs(rival, above);
    BlockMentionsWorth(above, rival);
    NewOutsWorth(rival);
    ValueAfter(height, c, rival);
    InputsAboveTip(height, c, tip, rival);
    TakenWorth(height, c, tip, rival);
  }

  // ── Whole chains ───────────────────────────────────────────────────────────

  ghost predicate DistinctInputsFrom(chain: seq<Block>, n: nat) {
    forall i :: n <= i < |chain| ==> InputsDistinct(chain[i].txs)
  }

  lemma AcceptedMovesValue(p: Params, registry: Validators.Registry, chain: seq<Block>, block: Block)
    requires GoodChain(p, registry, chain) && AcceptedOn(p, registry, chain, block) && InputsDistinct(block.txs)
    ensures var before, after := Replay(chain).utxo, Replay(chain + [block]).utxo;
            && Value(after) + BlockIn(block.txs, before) == Value(before) + BlockOut(block.txs)
            && BlockOut(block.txs) <= BlockIn(block.txs, before)
  {
    AcceptedIsFresh(p, registry, chain, block);
    AcceptedFacts(p, registry, chain, block);
    DistinctInputsDistinctTxs(block.txs, Replay(chain).utxo);
    BlockMovesValue(block.header.height, Replay(chain), block.txs);
    OutWithinIn(block.txs, Replay(chain).utxo);
    assert Prefix(chain + [block]) == chain;
  }

  /** The total never rises again after the genesis block. */
  lemma {:induction false} ValueNeverRises(p: Params, registry: Validators.Registry, chain: seq<Block>, n: nat)
    requires GoodChain(p, registry, chain) && 0 < n <= |chain| && DistinctInputsFrom(chain, n)
    ensures Value(Replay(chain).utxo) <= Value(Replay(chain[..n]).utxo)
    decreases |chain|
  {
    if n == |chain| {
      assert chain[..n] == chain;
    } else {
      var init := Prefix(chain);
      assert init[..n] == chain[..n];
      ValueNeverRises(p, registry, init, n);
      AcceptedMovesValue(p, registry, init, Last(chain));
      SplitLast(chain);
    }
  }

  // ── Balances ───────────────────────────────────────────────────────────────

  function Owned(utxo: Utxo, owner: Address): Utxo {
    map ref | ref in utxo && utxo[ref].address == owner :: utxo[ref]
  }

  ghost function Balance(utxo: Utxo, owner: Address): nat {
    Value(Owned(utxo, owner))
  }

  ghost function BalanceSum(utxo: Utxo, owners: set<Address>): nat {
    if owners == {} then 0
    else
      var owner :| owner in owners;
      Balance(utxo, owner) + BalanceSum(utxo, owners - {owner})
  }

  lemma {:induction false} BalanceSumFrame(u: Utxo, v: Utxo, owners: set<Address>)
    requires forall owner :: owner in owners ==> Owned(u, owner) == Owned(v, owner)
    ensures BalanceSum(u, owners) == BalanceSum(v, owners)
  {
    if owners != {} {
      var owner :| owner in owners;
      assert Owned(u, owner) == Owned(v, owner);
      BalanceSumPick(u, owners, owner);
      BalanceSumPick(v, owners, owner);
      BalanceSumFrame(u, v, owners - {owner});
    }
  }

  lemma {:induction false} BalanceSumPick(utxo: Utxo, owners: set<Address>, owner: Address)
    requires owner in owners
    ensures BalanceSum(utxo, owners) == Balance(utxo, owner) + BalanceSum(utxo, owners - {owner})
  {
    var first :|
      first in owners && BalanceSum(utxo, owners) == Balance(utxo, first) + BalanceSum(utxo, owners - {first});
    if first != owner {
      BalanceSumPick(utxo, owners - {first}, owner);
      BalanceSumPick(utxo, owners - {owner}, first);
      assert owners - {first} - {owner} == owners - {owner} - {first};
    }
  }

  /** Over any addresses that include every owner, the balances add up to the whole. */
  lemma {:induction false} BalancesAddUp(utxo: Utxo, owners: set<Address>)
    requires forall ref :: ref in utxo ==> utxo[ref].address in owners
    ensures BalanceSum(utxo, owners) == Value(utxo)
    decreases |owners|
  {
    if owners == {} {
      assert utxo == map[];
    } else {
      var owner :| owner in owners;
      var rest := utxo - Owned(utxo, owner).Keys;
      BalanceSumPick(utxo, owners, owner);
      ValueOfUnion(rest, Owned(utxo, owner));
      assert rest + Owned(utxo, owner) == utxo;
      forall other | other in owners - {owner} ensures Owned(utxo, other) == Owned(rest, other) {
      }
      BalanceSumFrame(utxo, rest, owners - {owner});
      BalancesAddUp(rest, owners - {owner});
    }
  }

  lemma BalanceOfUnion(a: Utxo, b: Utxo, owner: Address)
    requires a.Keys !! b.Keys
    ensures Balance(a + b, owner) == Balance(a, owner) + Balance(b, owner)
  {
    ValueOfUnion(Owned(a, owner), Owned(b, owner));
    assert Owned(a + b, owner) == Owned(a, owner) + Owned(b, owner);
  }

  lemma BalanceWith(utxo: Utxo, ref: TxOutRef, output: TxOutput, owner: Address)
    requires ref !in utxo
    ensures Balance(utxo[ref := output], owner)
         == Balance(utxo, owner) + (if output.address == owner then output.amount else 0)
  {
    var more := utxo[ref := output];
    if output.address == owner {
      ValueWithout(Owned(more, owner), ref);
      assert Owned(more, owner) - {ref} == Owned(utxo, owner);
    } else {
      assert Owned(more, owner) == Owned(utxo, owner);
    }
  }

  /** A sum over the outputs, one at a time in whatever order: `rest` are those still to come. */
  lemma BalanceBegins(utxo: Utxo, owner: Address)
    ensures Balance(utxo - utxo.Keys, owner) == 0
  {
    assert Owned(utxo - utxo.Keys, owner) == map[];
  }

  lemma BalanceStep(utxo: Utxo, rest: set<TxOutRef>, ref: TxOutRef, owner: Address)
    requires ref in rest && rest <= utxo.Keys
    ensures Balance(utxo - (rest - {ref}), owner)
         == Balance(utxo - rest, owner) + (if utxo[ref].address == owner then utxo[ref].amount else 0)
  {
    BalanceWith(utxo - rest, ref, utxo[ref], owner);
    assert utxo - (rest - {ref}) == (utxo - rest)[ref := utxo[ref]];
  }

  lemma BalanceEnds(utxo: Utxo, owner: Address)
    ensures Balance(utxo - {}, owner) == Balance(utxo, owner)
  {
    assert utxo - {} == utxo;
  }

  lemma BalanceWithin(utxo: Utxo, owner: Address)
    ensures Balance(utxo, owner) <= Value(utxo)
  {
    var rest := utxo - Owned(utxo, owner).Keys;
    ValueOfUnion(rest, Owned(utxo, owner));
    assert rest + Owned(utxo, owner) == utxo;
  }

  // ── What happens without distinct inputs ───────────────────────────────────

  function Payment(key: SecretKey, ref: TxOutRef, amount: U64, payee: Address): Transaction {
    var outputs := [TxOutput(amount, payee)];
    Transaction(Transfer, [TxInput(ref, Sign(key, TxSigning(Transfer, [ref], outputs)), VerifyingKey(key))], outputs)
  }

  lemma PaymentValid(key: SecretKey, ref: TxOutRef, amount: U64, payee: Address)
    requires amount > 0
    ensures ValidTx(Payment(key, ref, amount, payee), map[ref := TxOutput(amount, AddressOf(VerifyingKey(key)))])
    ensures Ins(Payment(key, ref, amount, payee)) == {ref}
    ensures OutTotal(Payment(key, ref, amount, payee).outputs) == amount
  {
    var tx := Payment(key, ref, amount, payee);
    var utxo: Utxo := map[ref := TxOutput(amount, AddressOf(VerifyingKey(key)))];
    assert InputRefs(tx) == [ref];
    assert InTotal(tx.inputs, utxo) == amount by {
      assert InTotal(tx.inputs[..0], utxo) == 0;
    }
    assert OutTotal(tx.outputs) == amount by {
      assert OutTotal(tx.outputs[..0]) == 0;
    }
  }

  /** On any coins that hold the output, the payment of it to anyone is valid. */
  lemma PaymentPasses(key: SecretKey, utxo: Utxo, ref: TxOutRef, payee: Address)
    requires ref in utxo && utxo[ref].address == AddressOf(VerifyingKey(key)) && utxo[ref].amount > 0
    ensures var tx := Payment(key, ref, utxo[ref].amount, payee);
            && ValidTx(tx, utxo) && NoOverflow(tx) && Ins(tx) == {ref} && OutTotal(tx.outputs) == utxo[ref].amount
  {
    var tx := Payment(key, ref, utxo[ref].amount, payee);
    PaymentValid(key, ref, utxo[ref].amount, payee);
    ValidTxFrame(tx, map[ref := utxo[ref]], utxo);
  }

  /** The output `ref`, worth `amount`, paid once to `p` and once to `q`. */
  function PaidTwice(key: SecretKey, ref: TxOutRef, amount: U64, p: Address, q: Address): seq<Transaction> {
    [Payment(key, ref, amount, p), Payment(key, ref, amount, q)]
  }

  lemma PaidTwicePass(key: SecretKey, utxo: Utxo, ref: TxOutRef, p: Address, q: Address, txs: seq<Transaction>)
    requires ref in utxo && utxo[ref].address == AddressOf(VerifyingKey(key)) && utxo[ref].amount > 0 && p != q
    requires txs == PaidTwice(key, ref, utxo[ref].amount, p, q)
    ensures AllValid(txs, utxo) && NoOverflows(txs) && TxsIns(txs) == {ref}
    ensures Value(NewOuts(txs)) == utxo[ref].amount + utxo[ref].amount
  {
    PaymentPasses(key, utxo, ref, p);
    PaymentPasses(key, utxo, ref, q);
    TwoSpenders(ref, txs[0], txs[1]);
    assert txs == [txs[0], txs[1]];
  }

  /** Two payments of one output both pass the block check, whatever else is unspent, and its value is made twice. */
  lemma DoubleSpendPasses(
    key: SecretKey, height: nat, c: Coins, ref: TxOutRef, p: Address, q: Address, txs: seq<Transaction>)
    requires ref in c.utxo && c.utxo[ref].address == AddressOf(VerifyingKey(key)) && c.utxo[ref].amount > 0 && p != q
    requires txs == PaidTwice(key, ref, c.utxo[ref].amount, p, q) && FreshOuts(c.utxo, txs)
    ensures AllValid(txs, c.utxo) && NoOverflows(txs)
    ensures Value(ApplyTxs(height, c, txs).utxo) == Value(c.utxo) + c.utxo[ref].amount
  {
    PaidTwicePass(key, c.utxo, ref, p, q, txs);
    assert NoInnerSpend(txs);
    ValueAfter(height, c, txs);
    PartOne(c.utxo, ref);
  }

  lemma TwoSpenders(ref: TxOutRef, a: Transaction, b: Transaction)
    requires Ins(a) == Ins(b) == {ref} && a != b
    ensures TxsIns([a, b]) == {ref}
    ensures Value(NewOuts([a, b])) == OutTotal(a.outputs) + OutTotal(b.outputs)
  {
    var txs := [a, b];
    assert txs[..1] == [a];
    assert TxsIns([a]) == {ref} && BlockOut([a]) == OutTotal(a.outputs) by {
      assert [a][..0] == [];
    }
    NewOutsWorth(txs);
  }
}
