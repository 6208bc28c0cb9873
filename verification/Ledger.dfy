/**
 The UTXO map and its undo records as values: what applying and rolling back a
 list of transactions means. Both stores are proved against these functions.
 */
module Ledger {
  import opened Types

  type Utxo = map<TxOutRef, TxOutput>

  /** Key of the `spent_h` tree: block height followed by the output reference. */
  datatype SpentKey = SpentKey(height: nat, outRef: TxOutRef)
  type SpentLog = map<SpentKey, TxOutput>

  datatype Coins = Coins(utxo: Utxo, spent: SpentLog)

  function Ins(tx: Transaction): (r: set<TxOutRef>) {
    set input | input in tx.inputs :: input.outRef
  }

  function Outs(tx: Transaction): (r: Utxo) {
    map i | 0 <= i < |tx.outputs| :: TxOutRef(TxHash(tx), i) := tx.outputs[i]
  }

  /** The references of the first inputs, for the loops that take one input at a time. */
  function InRefs(inputs: seq<TxInput>): set<TxOutRef> {
    if inputs == [] then {} else InRefs(inputs[..|inputs| - 1]) + {inputs[|inputs| - 1].outRef}
  }

  lemma {:induction false} InRefsMember(inputs: seq<TxInput>, ref: TxOutRef)
    ensures ref in InRefs(inputs) <==> exists input :: input in inputs && input.outRef == ref
  {
    if inputs != [] {
      var init, last := inputs[..|inputs| - 1], inputs[|inputs| - 1];
      InRefsMember(init, ref);
      assert inputs == init + [last];
    }
  }

  lemma InRefsAreIns(tx: Transaction)
    ensures InRefs(tx.inputs) == Ins(tx)
  {
    forall ref ensures ref in InRefs(tx.inputs) <==> ref in Ins(tx) {
      InRefsMember(tx.inputs, ref);
    }
  }

  /** The first `n` outputs of a transaction. */
  function OutsUpTo(tx: Transaction, n: nat): Utxo
    requires n <= |tx.outputs|
  {
    map i | 0 <= i < n :: TxOutRef(TxHash(tx), i) := tx.outputs[i]
  }

  lemma OutsUpToStep(tx: Transaction, n: nat)
    requires n < |tx.outputs|
    ensures TxOutRef(TxHash(tx), n) !in OutsUpTo(tx, n)
    ensures OutsUpTo(tx, n + 1) == OutsUpTo(tx, n)[TxOutRef(TxHash(tx), n) := tx.outputs[n]]
  {
  }

  lemma PlusUpdate(a: Utxo, b: Utxo, ref: TxOutRef, output: TxOutput)
    ensures a + b[ref := output] == (a + b)[ref := output]
  {
  }

  lemma OutsUpToAll(tx: Transaction)
    ensures OutsUpTo(tx, |tx.outputs|) == Outs(tx)
  {
  }

  function TxsIns(txs: seq<Transaction>): (r: set<TxOutRef>) {
    if txs == [] then {} else TxsIns(txs[..|txs| - 1]) + Ins(txs[|txs| - 1])
  }

  function TxsOuts(txs: seq<Transaction>): (r: set<TxOutRef>) {
    if txs == [] then {} else TxsOuts(txs[..|txs| - 1]) + Outs(txs[|txs| - 1]).Keys
  }

  /** The entries of a map at some references. */
  function Part(utxo: Utxo, refs: set<TxOutRef>): Utxo {
    map ref | ref in refs && ref in utxo :: utxo[ref]
  }

  /** The output a reference names. A reference holds the hash of its transaction, so it fixes the output. */
  function Named(ref: TxOutRef): (r: TxOutput)
    requires IsOutRef(ref)
  {
    ref.txHash.tx.outputs[ref.index]
  }

  predicate IsOutRef(ref: TxOutRef) {
    ref.txHash.OfTx? && ref.index < |ref.txHash.tx.outputs|
  }

  // ── Applying ───────────────────────────────────────────────────────────────

  /** Missing inputs are skipped, not rejected. */
  function ApplyTx(height: nat, c: Coins, tx: Transaction): Coins {
    Coins(c.utxo - Ins(tx) + Outs(tx), c.spent + Consumed(height, c.utxo, Ins(tx)))
  }

  function Consumed(height: nat, utxo: Utxo, refs: set<TxOutRef>): SpentLog {
    map ref | ref in refs && ref in utxo :: SpentKey(height, ref) := utxo[ref]
  }

  function ApplyTxs(height: nat, c: Coins, txs: seq<Transaction>): Coins {
    if txs == [] then c
    else ApplyTx(height, ApplyTxs(height, c, txs[..|txs| - 1]), txs[|txs| - 1])
  }

  // ── Rolling back ───────────────────────────────────────────────────────────

  function RollbackTx(height: nat, c: Coins, tx: Transaction): Coins {
    Coins(c.utxo - Outs(tx).Keys + Restored(height, c.spent, Ins(tx)), c.spent - KeysAt(height, Ins(tx)))
  }

  function Restored(height: nat, spent: SpentLog, refs: set<TxOutRef>): Utxo {
    map ref | ref in refs && SpentKey(height, ref) in spent :: spent[SpentKey(height, ref)]
  }

  function KeysAt(height: nat, refs: set<TxOutRef>): set<SpentKey> {
    set ref | ref in refs :: SpentKey(height, ref)
  }

  /** Transactions are undone last to first. */
  function RollbackTxs(height: nat, c: Coins, txs: seq<Transaction>): Coins
    decreases |txs|
  {
    if txs == [] then c
    else RollbackTxs(height, RollbackTx(height, c, txs[|txs| - 1]), txs[..|txs| - 1])
  }

  // ── Rolling back undoes applying ───────────────────────────────────────────

  /** The outputs of the transactions collide with nothing already in the map. */
  ghost predicate FreshOuts(utxo: Utxo, txs: seq<Transaction>) {
    TxsOuts(txs) !! utxo.Keys
  }

  ghost predicate NoRecordsAt(height: nat, spent: SpentLog) {
    forall key :: key in spent ==> key.height != height
  }

  /** Some transaction spends `ref` after another one, earlier in the list, created it. */
  ghost predicate SpentAfterCreated(ref: TxOutRef, txs: seq<Transaction>) {
    txs != [] &&
    var init, last := txs[..|txs| - 1], txs[|txs| - 1];
    SpentAfterCreated(ref, init) || (ref in Ins(last) && ref in TxsOuts(init))
  }

  lemma {:induction false} SpentAfterCreatedWasCreated(ref: TxOutRef, txs: seq<Transaction>)
    requires SpentAfterCreated(ref, txs)
    ensures ref in TxsOuts(txs) && ref in TxsIns(txs)
  {
    var init := txs[..|txs| - 1];
    if SpentAfterCreated(ref, init) {
      SpentAfterCreatedWasCreated(ref, init);
    }
  }

  ghost predicate OtherRecordsKept(height: nat, base: Coins, now: Coins) {
    forall key: SpentKey :: key.height != height ==>
      (key in base.spent <==> key in now.spent) && (key in base.spent ==> base.spent[key] == now.spent[key])
  }

  /** What applying makes of one reference, with no records at the height before. */
  ghost predicate AppliedAt(height: nat, base: Coins, txs: seq<Transaction>, now: Coins, ref: TxOutRef) {
    var key := SpentKey(height, ref);
    && (SpentAfterCreated(ref, txs) ==> key in now.spent)
    && (ref in TxsOuts(txs) && !SpentAfterCreated(ref, txs) ==> ref in now.utxo)
    && (ref !in TxsIns(txs) ==> key !in now.spent)
    && (ref !in base.utxo ==>
          && (ref in now.utxo ==> ref in TxsOuts(txs))
          && (key in now.spent ==> SpentAfterCreated(ref, txs)))
    && (ref in base.utxo && ref !in TxsOuts(txs) ==>
          if ref in TxsIns(txs) then ref !in now.utxo else ref in now.utxo && now.utxo[ref] == base.utxo[ref])
    && (ref in base.utxo && ref in TxsIns(txs) && !SpentAfterCreated(ref, txs) ==>
          key in now.spent && now.spent[key] == base.utxo[ref])
  }

  lemma {:induction false} ApplyAt(height: nat, base: Coins, txs: seq<Transaction>, ref: TxOutRef)
    requires NoRecordsAt(height, base.spent)
    ensures AppliedAt(height, base, txs, ApplyTxs(height, base, txs), ref)
  {
    if txs != [] {
      var init := txs[..|txs| - 1];
      ApplyAt(height, base, init, ref);
      if SpentAfterCreated(ref, init) {
        SpentAfterCreatedWasCreated(ref, init);
      }
    }
  }

  lemma {:induction false} ApplyKeepsOthers(height: nat, c: Coins, txs: seq<Transaction>)
    ensures OtherRecordsKept(height, c, ApplyTxs(height, c, txs))
  {
    if txs != [] {
      ApplyKeepsOthers(height, c, txs[..|txs| - 1]);
    }
  }

  /**
   What rolling back makes of one reference, from any coins. Its record is used
   up by the last transaction that names it; one that created it before then
   takes it away again.
   */
  lemma {:induction false} RollbackAt(height: nat, now: Coins, txs: seq<Transaction>, ref: TxOutRef)
    ensures var r, key := RollbackTxs(height, now, txs), SpentKey(height, ref);
            && (key in r.spent <==> key in now.spent && ref !in TxsIns(txs))
            && (key in r.spent ==> r.spent[key] == now.spent[key])
            && (key in now.spent && ref in TxsIns(txs) ==>
                  && (ref in r.utxo <==> !SpentAfterCreated(ref, txs))
                  && (ref in r.utxo ==> r.utxo[ref] == now.spent[key]))
            && (key !in now.spent || ref !in TxsIns(txs) ==>
                  && (ref in r.utxo <==> ref in now.utxo && ref !in TxsOuts(txs))
                  && (ref in r.utxo ==> r.utxo[ref] == now.utxo[ref]))
    ensures OtherRecordsKept(height, now, RollbackTxs(height, now, txs))
    decreases |txs|
  {
    if txs != [] {
      var init, before := txs[..|txs| - 1], RollbackTx(height, now, txs[|txs| - 1]);
      RollbackAt(height, before, init, ref);
      if SpentAfterCreated(ref, init) {
        SpentAfterCreatedWasCreated(ref, init);
      }
    }
  }

  /**
   What rolling a list back loses: an output that was there before and is created
   once more, unless it was spent first and never after.
   */
  ghost function Lost(utxo: Utxo, txs: seq<Transaction>): set<TxOutRef> {
    set ref | ref in utxo && ref in TxsOuts(txs) && (ref in TxsIns(txs) ==> SpentAfterCreated(ref, txs))
  }

  lemma SameCoins(a: Coins, b: Coins)
    requires forall ref :: (ref in a.utxo <==> ref in b.utxo) && (ref in a.utxo ==> a.utxo[ref] == b.utxo[ref])
    requires forall key :: (key in a.spent <==> key in b.spent) && (key in a.spent ==> a.spent[key] == b.spent[key])
    ensures a == b
  {
    assert a.utxo == b.utxo && a.spent == b.spent;
  }

  /**
   What a rollback leaves, exactly, of any block: the records as before and all
   coins but those lost. Inputs may be missing, repeated, or created earlier in
   the same block.
   */
  lemma RollbackLeaves(height: nat, c: Coins, txs: seq<Transaction>)
    requires NoRecordsAt(height, c.spent)
    ensures RollbackTxs(height, ApplyTxs(height, c, txs), txs) == Coins(c.utxo - Lost(c.utxo, txs), c.spent)
  {
    var now, left := ApplyTxs(height, c, txs), Coins(c.utxo - Lost(c.utxo, txs), c.spent);
    var r := RollbackTxs(height, now, txs);
    ApplyKeepsOthers(height, c, txs);
    forall ref ensures (ref in r.utxo <==> ref in left.utxo) && (ref in r.utxo ==> r.utxo[ref] == left.utxo[ref]) {
      LeftAt(height, c, txs, now, ref);
    }
    forall key ensures (key in r.spent <==> key in left.spent) && (key in r.spent ==> r.spent[key] == left.spent[key]) {
      LeftAt(height, c, txs, now, key.outRef);
      assert key.height == height ==> key == SpentKey(height, key.outRef);
    }
    SameCoins(r, left);
  }

  lemma LeftAt(height: nat, c: Coins, txs: seq<Transaction>, now: Coins, ref: TxOutRef)
    requires NoRecordsAt(height, c.spent) && now == ApplyTxs(height, c, txs)
    ensures var r := RollbackTxs(height, now, txs);
            && (ref in r.utxo <==> ref in c.utxo && ref !in Lost(c.utxo, txs))
            && (ref in r.utxo ==> r.utxo[ref] == c.utxo[ref])
            && SpentKey(height, ref) !in r.spent && OtherRecordsKept(height, now, r)
  {
    ApplyAt(height, c, txs, ref);
    RollbackAt(height, now, txs, ref);
    if SpentAfterCreated(ref, txs) {
      SpentAfterCreatedWasCreated(ref, txs);
    }
  }

  /** Rolling back undoes applying if and only if nothing is lost. */
  lemma RollbackUndoesApply(height: nat, c: Coins, txs: seq<Transaction>)
    requires NoRecordsAt(height, c.spent)
    ensures RollbackTxs(height, ApplyTxs(height, c, txs), txs) == c <==> Lost(c.utxo, txs) == {}
  {
    RollbackLeaves(height, c, txs);
    var lost := Lost(c.utxo, txs);
    if lost == {} {
      assert c.utxo - lost == c.utxo;
    } else {
      var ref :| ref in lost;
      assert ref in c.utxo && ref !in c.utxo - lost;
    }
  }

  /** Outputs that are new cannot be lost. */
  lemma FreshLosesNothing(utxo: Utxo, txs: seq<Transaction>)
    requires FreshOuts(utxo, txs)
    ensures Lost(utxo, txs) == {}
  {
  }

  /** Of a block that spends none of its own outputs only new ones are safe. */
  lemma LostIffFresh(utxo: Utxo, txs: seq<Transaction>)
    requires NoInnerSpend(txs)
    ensures Lost(utxo, txs) == {} <==> FreshOuts(utxo, txs)
  {
    if ref :| ref in TxsOuts(txs) && ref in utxo {
      assert ref in Lost(utxo, txs);
    }
  }

  /** Rolling back what was never applied takes away outputs of the same name and nothing else. */
  lemma RollbackUnapplied(height: nat, c: Coins, txs: seq<Transaction>)
    requires NoRecordsAt(height, c.spent)
    ensures RollbackTxs(height, c, txs) == Coins(c.utxo - TxsOuts(txs), c.spent)
  {
    var r, left := RollbackTxs(height, c, txs), Coins(c.utxo - TxsOuts(txs), c.spent);
    forall ref ensures (ref in r.utxo <==> ref in left.utxo) && (ref in r.utxo ==> r.utxo[ref] == left.utxo[ref]) {
      RollbackAt(height, c, txs, ref);
    }
    forall key ensures (key in r.spent <==> key in left.spent) && (key in r.spent ==> r.spent[key] == left.spent[key]) {
      RollbackAt(height, c, txs, key.outRef);
      assert key.height == height ==> key == SpentKey(height, key.outRef);
    }
    SameCoins(r, left);
  }

  // ── Applying to coins that lack some ───────────────────────────────────────

  /** The list creates `ref` before any transaction has named it as an input. */
  ghost predicate CreatedUnread(ref: TxOutRef, txs: seq<Transaction>) {
    txs != [] &&
    var init, last := txs[..|txs| - 1], txs[|txs| - 1];
    CreatedUnread(ref, init) || (ref !in TxsIns(txs) && ref in Outs(last))
  }

  /** Whether `ref` was there before makes no difference after the list: it is created unread, or spent once created. */
  ghost predicate MadeUpFor(ref: TxOutRef, txs: seq<Transaction>) {
    CreatedUnread(ref, txs) || SpentAfterCreated(ref, txs)
  }

  ghost predicate AgreeAt(height: nat, a: Coins, b: Coins, ref: TxOutRef) {
    var key := SpentKey(height, ref);
    && (ref in a.utxo <==> ref in b.utxo) && (ref in a.utxo ==> a.utxo[ref] == b.utxo[ref])
    && (key in a.spent <==> key in b.spent) && (key in a.spent ==> a.spent[key] == b.spent[key])
  }

  lemma {:induction false} CreatedUnreadWasCreated(ref: TxOutRef, txs: seq<Transaction>)
    requires CreatedUnread(ref, txs)
    ensures ref in TxsOuts(txs)
  {
    if CreatedUnread(ref, txs[..|txs| - 1]) {
      CreatedUnreadWasCreated(ref, txs[..|txs| - 1]);
    }
  }

  lemma {:induction false} ApplyAgreeing(height: nat, c: Coins, d: Coins, txs: seq<Transaction>, ref: TxOutRef)
    requires AgreeAt(height, c, d, ref)
    ensures AgreeAt(height, ApplyTxs(height, c, txs), ApplyTxs(height, d, txs), ref)
  {
    if txs != [] {
      ApplyAgreeing(height, c, d, txs[..|txs| - 1], ref);
    }
  }

  /** How `b`, which lacked `ref` at first, still differs from `a`, which had it. */
  ghost predicate StillLacking(height: nat, a: Coins, b: Coins, created: bool, ref: TxOutRef) {
    var key := SpentKey(height, ref);
    && key !in b.spent
    && if created then ref in a.utxo && ref in b.utxo && a.utxo[ref] == b.utxo[ref] && key in a.spent
       else ref !in b.utxo && (ref in a.utxo || key in a.spent)
  }

  lemma {:induction false} ApplyLacking(height: nat, c: Coins, d: Coins, txs: seq<Transaction>, ref: TxOutRef)
    requires NoRecordsAt(height, c.spent) && NoRecordsAt(height, d.spent) && ref in c.utxo && ref !in d.utxo
    ensures var a, b := ApplyTxs(height, c, txs), ApplyTxs(height, d, txs);
            if MadeUpFor(ref, txs) then AgreeAt(height, a, b, ref)
            else
              && StillLacking(height, a, b, ref in TxsOuts(txs), ref)
              && (ref !in TxsIns(txs) ==> ref in a.utxo && SpentKey(height, ref) !in a.spent)
              && (ref in TxsIns(txs) ==> SpentKey(height, ref) in a.spent)
  {
    if txs != [] {
      ApplyLacking(height, c, d, txs[..|txs| - 1], ref);
    }
  }

  lemma AgreeingIsSame(height: nat, a: Coins, b: Coins)
    requires OtherRecordsKept(height, a, b)
    ensures (forall ref :: AgreeAt(height, a, b, ref)) <==> a == b
  {
    if forall ref :: AgreeAt(height, a, b, ref) {
      forall ref ensures (ref in a.utxo <==> ref in b.utxo) && (ref in a.utxo ==> a.utxo[ref] == b.utxo[ref]) {
        assert AgreeAt(height, a, b, ref);
      }
      forall key ensures (key in a.spent <==> key in b.spent) && (key in a.spent ==> a.spent[key] == b.spent[key]) {
        assert AgreeAt(height, a, b, key.outRef);
        assert key.height == height ==> key == SpentKey(height, key.outRef);
      }
      SameCoins(a, b);
    }
  }

  /**
   The same list on coins and on the same coins without some: the results are
   equal if and only if the list makes up for each that lacks.
   */
  lemma ApplyWithout(height: nat, c: Coins, lacking: set<TxOutRef>, txs: seq<Transaction>)
    requires NoRecordsAt(height, c.spent) && lacking <= c.utxo.Keys
    ensures ApplyTxs(height, Coins(c.utxo - lacking, c.spent), txs) == ApplyTxs(height, c, txs)
            <==> forall ref :: ref in lacking ==> MadeUpFor(ref, txs)
  {
    var d := Coins(c.utxo - lacking, c.spent);
    var a, b := ApplyTxs(height, c, txs), ApplyTxs(height, d, txs);
    ApplyKeepsOthers(height, c, txs);
    ApplyKeepsOthers(height, d, txs);
    forall ref ensures AgreeAt(height, a, b, ref) <==> ref !in lacking || MadeUpFor(ref, txs) {
      if ref in lacking {
        ApplyLacking(height, c, d, txs, ref);
      } else {
        ApplyAgreeing(height, c, d, txs, ref);
      }
    }
    AgreeingIsSame(height, a, b);
  }

  // ── Applying, reference by reference ───────────────────────────────────────

  lemma OutsNamed(tx: Transaction, ref: TxOutRef)
    ensures ref in Outs(tx) <==> ref.txHash == TxHash(tx) && IsOutRef(ref)
    ensures ref in Outs(tx) ==> Outs(tx)[ref] == Named(ref)
  {
  }

  /** No transaction of the list spends an output that the list creates. */
  ghost predicate NoInnerSpend(txs: seq<Transaction>) {
    TxsIns(txs) !! TxsOuts(txs)
  }

  /** Without inner spends the order of the list has no bearing on the result. */
  lemma {:induction false} AppliedRef(height: nat, c: Coins, txs: seq<Transaction>, ref: TxOutRef)
    requires NoInnerSpend(txs)
    ensures var d := ApplyTxs(height, c, txs);
            && (ref in d.utxo <==> ref in TxsOuts(txs) || (ref in c.utxo && ref !in TxsIns(txs)))
            && (ref in TxsOuts(txs) ==> IsOutRef(ref) && d.utxo[ref] == Named(ref))
            && (ref !in TxsOuts(txs) && ref in d.utxo ==> d.utxo[ref] == c.utxo[ref])
    ensures var d, key := ApplyTxs(height, c, txs), SpentKey(height, ref);
            && (key in d.spent <==> key in c.spent || (ref in TxsIns(txs) && ref in c.utxo))
            && (ref in TxsIns(txs) && ref in c.utxo ==> d.spent[key] == c.utxo[ref])
            && (key in d.spent && !(ref in TxsIns(txs) && ref in c.utxo) ==> d.spent[key] == c.spent[key])
    ensures OtherRecordsKept(height, c, ApplyTxs(height, c, txs))
  {
    if txs != [] {
      AppliedRef(height, c, txs[..|txs| - 1], ref);
      OutsNamed(txs[|txs| - 1], ref);
    }
  }

  lemma {:induction false} TxsInsMember(txs: seq<Transaction>, ref: TxOutRef)
    ensures ref in TxsIns(txs) <==> exists tx :: tx in txs && ref in Ins(tx)
  {
    if txs != [] {
      var init, last := txs[..|txs| - 1], txs[|txs| - 1];
      TxsInsMember(init, ref);
      assert txs == init + [last];
    }
  }

  lemma {:induction false} TxsOutsMember(txs: seq<Transaction>, ref: TxOutRef)
    ensures ref in TxsOuts(txs) <==> ref.txHash.OfTx? && ref.txHash.tx in txs && IsOutRef(ref)
  {
    if txs != [] {
      var init, last := txs[..|txs| - 1], txs[|txs| - 1];
      TxsOutsMember(init, ref);
      OutsNamed(last, ref);
      assert txs == init + [last];
    }
  }

  /** Any reordering of the transactions, repeats included, gives the same coins and records. */
  lemma OrderIrrelevant(height: nat, c: Coins, a: seq<Transaction>, b: seq<Transaction>)
    requires NoInnerSpend(a)
    requires forall tx :: tx in a <==> tx in b
    ensures ApplyTxs(height, c, a) == ApplyTxs(height, c, b)
  {
    forall ref ensures ref in TxsIns(a) <==> ref in TxsIns(b) {
      TxsInsMember(a, ref);
      TxsInsMember(b, ref);
    }
    forall ref ensures ref in TxsOuts(a) <==> ref in TxsOuts(b) {
      TxsOutsMember(a, ref);
      TxsOutsMember(b, ref);
    }
    SameApplied(height, c, a, b);
  }

  lemma SameApplied(height: nat, c: Coins, a: seq<Transaction>, b: seq<Transaction>)
    requires NoInnerSpend(a) && TxsIns(a) == TxsIns(b) && TxsOuts(a) == TxsOuts(b)
    ensures ApplyTxs(height, c, a) == ApplyTxs(height, c, b)
  {
    var x, y := ApplyTxs(height, c, a), ApplyTxs(height, c, b);
    forall ref
      ensures ref in x.utxo <==> ref in y.utxo
      ensures ref in x.utxo ==> x.utxo[ref] == y.utxo[ref]
    {
      AppliedRef(height, c, a, ref);
      AppliedRef(height, c, b, ref);
    }
    forall key
      ensures key in x.spent <==> key in y.spent
      ensures key in x.spent ==> x.spent[key] == y.spent[key]
    {
      AppliedRef(height, c, a, key.outRef);
      AppliedRef(height, c, b, key.outRef);
      assert key.height == height ==> key == SpentKey(height, key.outRef);
    }
    assert x.utxo == y.utxo;
    assert x.spent == y.spent;
  }
}
