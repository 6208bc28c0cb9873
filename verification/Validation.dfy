/**
 Transaction and block validation. A block's transactions are all checked
 against the coins before the block; the lemmas say what that means for the
 one-after-another application that follows.
 */
module Validation {
  import opened Types
  import opened Ledger
  import Merkle
  import Election
  import Validators

  // ── One transaction ────────────────────────────────────────────────────────

  datatype TxError =
    | EmptyOutputs
    | ZeroValueOutput(output: nat)
    | InputNotFound
    | InvalidOwner(input: nat)
    | InvalidSignature(input: nat)
    | InsufficientFunds(inputs: U64, outputs: U64)

  predicate OwnerOk(input: TxInput, utxo: Utxo) {
    input.outRef in utxo && utxo[input.outRef].address == AddressOf(input.pubkey)
  }

  predicate InputOk(tx: Transaction, input: TxInput, utxo: Utxo) {
    OwnerOk(input, utxo) && Verify(input.pubkey, TxSigningBytes(tx), input.signature)
  }

  /** What the inputs are worth, counted once for each time they are named. */
  function InTotal(inputs: seq<TxInput>, utxo: Utxo): nat {
    if inputs == [] then 0
    else
      var ref := inputs[|inputs| - 1].outRef;
      InTotal(inputs[..|inputs| - 1], utxo) + (if ref in utxo then utxo[ref].amount else 0)
  }

  predicate OutputsOk(tx: Transaction) {
    tx.outputs != [] && forall output :: output in tx.outputs ==> output.amount > 0
  }

  predicate InputsOk(tx: Transaction, utxo: Utxo) {
    forall input :: input in tx.inputs ==> InputOk(tx, input, utxo)
  }

  predicate ValidTx(tx: Transaction, utxo: Utxo) {
    && OutputsOk(tx)
    && InputsOk(tx, utxo)
    && OutTotal64(tx.outputs) <= Min(InTotal(tx.inputs, utxo), U64_MAX)
  }

  ghost predicate FirstBadInput(tx: Transaction, utxo: Utxo, k: nat) {
    && k < |tx.inputs| && !InputOk(tx, tx.inputs[k], utxo)
    && forall j :: 0 <= j < k ==> InputOk(tx, tx.inputs[j], utxo)
  }

  /** Which check failed first. */
  ghost predicate Explains(e: TxError, tx: Transaction, utxo: Utxo) {
    match e
    case EmptyOutputs =>
      tx.outputs == []
    case ZeroValueOutput(i) =>
      i < |tx.outputs| && tx.outputs[i].amount == 0 && forall j :: 0 <= j < i ==> tx.outputs[j].amount > 0
    case InputNotFound =>
      OutputsOk(tx) && exists k: nat :: FirstBadInput(tx, utxo, k) && tx.inputs[k].outRef !in utxo
    case InvalidOwner(k) =>
      OutputsOk(tx) && FirstBadInput(tx, utxo, k) && tx.inputs[k].outRef in utxo && !OwnerOk(tx.inputs[k], utxo)
    case InvalidSignature(k) =>
      OutputsOk(tx) && FirstBadInput(tx, utxo, k) && OwnerOk(tx.inputs[k], utxo)
    case InsufficientFunds(inputs, outputs) =>
      && OutputsOk(tx) && InputsOk(tx, utxo)
      && inputs == Min(InTotal(tx.inputs, utxo), U64_MAX) < OutTotal64(tx.outputs) == outputs
  }

  method ValidateTransaction(tx: Transaction, utxo: Utxo) returns (r: Result<(), TxError>)
    ensures r.Ok? <==> ValidTx(tx, utxo)
    ensures r.Err? ==> Explains(r.error, tx, utxo)
  {
    if tx.outputs == [] {
      return Err(EmptyOutputs);
    }
    for i := 0 to |tx.outputs|
      invariant forall j :: 0 <= j < i ==> tx.outputs[j].amount > 0
    {
      if tx.outputs[i].amount == 0 {
        return Err(ZeroValueOutput(i));
      }
    }
    var msg := TxSigningBytes(tx);
    var totalIn: U64 := 0;
    for k := 0 to |tx.inputs|
      invariant forall j :: 0 <= j < k ==> InputOk(tx, tx.inputs[j], utxo)
      invariant totalIn == Min(InTotal(tx.inputs[..k], utxo), U64_MAX)
    {
      var input := tx.inputs[k];
      assert !InputOk(tx, input, utxo) ==> FirstBadInput(tx, utxo, k);
      if input.outRef !in utxo {
        return Err(InputNotFound);
      }
      var unspent := utxo[input.outRef];
      if unspent.address != AddressOf(input.pubkey) {
        return Err(InvalidOwner(k));
      }
      if !Verify(input.pubkey, msg, input.signature) {
        return Err(InvalidSignature(k));
      }
      assert tx.inputs[..k + 1][..k] == tx.inputs[..k];
      totalIn := SaturatingAdd(totalIn, unspent.amount);
    }
    assert tx.inputs[..|tx.inputs|] == tx.inputs;
    var totalOut := OutTotal64(tx.outputs);
    if totalIn < totalOut {
      return Err(InsufficientFunds(totalIn, totalOut));
    }
    return Ok(());
  }

  // ── Who may spend ──────────────────────────────────────────────────────────

  /** The owner of the output that the input names has signed this transaction. */
  ghost predicate SignedByOwner(tx: Transaction, k: nat, utxo: Utxo)
    requires k < |tx.inputs|
  {
    var input := tx.inputs[k];
    && input.outRef in utxo
    && exists key ::
         && AddressOf(VerifyingKey(key)) == utxo[input.outRef].address
         && input == TxInput(input.outRef, Sign(key, TxSigningBytes(tx)), VerifyingKey(key))
  }

  lemma InputOkIs(tx: Transaction, k: nat, utxo: Utxo)
    requires k < |tx.inputs|
    ensures InputOk(tx, tx.inputs[k], utxo) <==> SignedByOwner(tx, k, utxo)
  {
    var input := tx.inputs[k];
    if InputOk(tx, input, utxo) {
      assert input == TxInput(input.outRef, Sign(input.pubkey.key, TxSigningBytes(tx)), VerifyingKey(input.pubkey.key));
    }
  }

  /** What a valid transaction is: positive outputs, each input signed by the owner of what it spends, enough value. */
  lemma ValidMeansSigned(tx: Transaction, utxo: Utxo)
    ensures ValidTx(tx, utxo) <==>
      && |tx.outputs| > 0 && (forall i :: 0 <= i < |tx.outputs| ==> tx.outputs[i].amount > 0)
      && (forall k :: 0 <= k < |tx.inputs| ==> SignedByOwner(tx, k, utxo))
      && OutTotal(tx.outputs) % 0x1_0000_0000_0000_0000 <= InTotal(tx.inputs, utxo)
  {
    forall k | 0 <= k < |tx.inputs| ensures InputOk(tx, tx.inputs[k], utxo) <==> SignedByOwner(tx, k, utxo) {
      InputOkIs(tx, k, utxo);
    }
    assert forall k :: 0 <= k < |tx.inputs| ==> tx.inputs[k] in tx.inputs;
  }

  /** A signature is good for one list of inputs and outputs only: no one can redirect a payment that was signed. */
  lemma SignatureBinds(a: Transaction, u: Utxo, i: nat, b: Transaction, v: Utxo, j: nat)
    requires ValidTx(a, u) && ValidTx(b, v) && i < |a.inputs| && j < |b.inputs|
    requires a.inputs[i].signature == b.inputs[j].signature
    ensures a.kind == b.kind && a.outputs == b.outputs && |a.inputs| == |b.inputs|
    ensures forall k :: 0 <= k < |a.inputs| ==> a.inputs[k].outRef == b.inputs[k].outRef
    ensures a.inputs[i].pubkey == b.inputs[j].pubkey
  {
    assert a.inputs[i] in a.inputs && b.inputs[j] in b.inputs;
    assert TxSigningBytes(a) == TxSigningBytes(b);
    forall k | 0 <= k < |a.inputs| ensures a.inputs[k].outRef == b.inputs[k].outRef {
      assert InputRefs(a)[k] == InputRefs(b)[k];
    }
  }

  /** A verdict depends on the coins only at the outputs the transaction names. */
  lemma ValidTxFrame(tx: Transaction, u: Utxo, v: Utxo)
    requires forall ref :: ref in Ins(tx) ==> (ref in u <==> ref in v) && (ref in u ==> u[ref] == v[ref])
    ensures ValidTx(tx, u) <==> ValidTx(tx, v)
  {
    forall input | input in tx.inputs ensures InputOk(tx, input, u) <==> InputOk(tx, input, v) {
      assert input.outRef in Ins(tx);
    }
    InTotalFrame(tx.inputs, u, v);
  }

  lemma {:induction false} InTotalFrame(inputs: seq<TxInput>, u: Utxo, v: Utxo)
    requires forall input :: input in inputs ==>
      (input.outRef in u <==> input.outRef in v) && (input.outRef in u ==> u[input.outRef] == v[input.outRef])
    ensures InTotal(inputs, u) == InTotal(inputs, v)
  {
    if inputs != [] {
      InTotalFrame(inputs[..|inputs| - 1], u, v);
      assert inputs[|inputs| - 1] in inputs;
    }
  }

  // ── Overflow of the output sum ─────────────────────────────────────────────

  /** The output amounts add up without wrapping around. */
  predicate NoOverflow(tx: Transaction) {
    OutTotal(tx.outputs) <= U64_MAX
  }

  lemma {:induction false} OutTotalPositive(outputs: seq<TxOutput>)
    requires outputs != [] && forall output :: output in outputs ==> output.amount > 0
    ensures OutTotal(outputs) > 0
  {
    assert outputs[|outputs| - 1] in outputs;
  }

  /** A valid transaction whose output sum does not wrap around creates no value. */
  lemma CreatesNoValue(tx: Transaction, utxo: Utxo)
    requires ValidTx(tx, utxo) && NoOverflow(tx)
    ensures OutTotal(tx.outputs) <= InTotal(tx.inputs, utxo)
  {
  }

  lemma NeedsInput(tx: Transaction, utxo: Utxo)
    requires ValidTx(tx, utxo) && NoOverflow(tx)
    ensures exists ref :: ref in Ins(tx) && ref in utxo
  {
    OutTotalPositive(tx.outputs);
    assert tx.inputs[0] in tx.inputs;
    assert tx.inputs[0].outRef in Ins(tx);
  }

  /** Two outputs of 2^63 and no input. */
  function Overflowing(payee: Address): Transaction {
    var half := TxOutput(0x8000_0000_0000_0000, payee);
    Transaction(Transfer, [], [half, half])
  }

  /** The outputs wrap around to nothing and need no input at all. */
  lemma WrappedOutputsPass(utxo: Utxo, payee: Address)
    ensures var tx := Overflowing(payee);
            ValidTx(tx, utxo) && !NoOverflow(tx) && OutTotal(tx.outputs) == U64_MAX + 1
  {
    var half := TxOutput(0x8000_0000_0000_0000, payee);
    assert [half, half][..1] == [half];
    assert OutTotal([half]) == half.amount;
    assert OutTotal([half, half]) == U64_MAX + 1;
  }

  // ── A block's transactions ─────────────────────────────────────────────────

  predicate AllValid(txs: seq<Transaction>, utxo: Utxo) {
    forall tx :: tx in txs ==> ValidTx(tx, utxo)
  }

  /** Each transaction valid when its turn comes. */
  ghost predicate ValidInTurn(height: nat, c: Coins, txs: seq<Transaction>) {
    txs == [] ||
    var init := txs[..|txs| - 1];
    ValidInTurn(height, c, init) && ValidTx(txs[|txs| - 1], ApplyTxs(height, c, init).utxo)
  }

  /** No output is named by two transactions of the list. */
  ghost predicate NoDoubleSpend(txs: seq<Transaction>) {
    txs == [] ||
    (NoDoubleSpend(txs[..|txs| - 1]) && Ins(txs[|txs| - 1]) !! TxsIns(txs[..|txs| - 1]))
  }

  lemma {:induction false} ValidInputsExist(txs: seq<Transaction>, utxo: Utxo)
    requires AllValid(txs, utxo)
    ensures TxsIns(txs) <= utxo.Keys
  {
    forall ref | ref in TxsIns(txs) ensures ref in utxo {
      TxsInsMember(txs, ref);
      var tx :| tx in txs && ref in Ins(tx);
      assert ValidTx(tx, utxo);
    }
  }

  /** Before its turn a transaction sees the block's coins, minus what earlier ones spent. */
  lemma ValidAtItsTurn(height: nat, c: Coins, before: seq<Transaction>, tx: Transaction)
    requires NoInnerSpend(before) && Ins(tx) !! TxsOuts(before)
    requires FreshOuts(c.utxo, before)
    ensures ValidTx(tx, ApplyTxs(height, c, before).utxo) <==> ValidTx(tx, c.utxo) && Ins(tx) !! TxsIns(before)
  {
    var d := ApplyTxs(height, c, before);
    forall ref
      ensures ref in Ins(tx) ==> (ref in d.utxo <==> ref in c.utxo && ref !in TxsIns(before))
      ensures ref in Ins(tx) && ref in d.utxo ==> d.utxo[ref] == c.utxo[ref]
    {
      AppliedRef(height, c, before, ref);
    }
    if Ins(tx) !! TxsIns(before) {
      ValidTxFrame(tx, d.utxo, c.utxo);
    } else {
      var ref :| ref in Ins(tx) && ref in TxsIns(before);
      var input :| input in tx.inputs && input.outRef == ref;
      assert !InputOk(tx, input, d.utxo);
    }
  }

  /**
   The check against the coins before the block is the check in turn, exactly
   when the block neither spends an output twice nor spends its own outputs.
   The validator enforces the second condition by itself; not the first.
   */
  lemma {:induction false} OneSnapshotOrInTurn(height: nat, c: Coins, txs: seq<Transaction>)
    requires FreshOuts(c.utxo, txs)
    ensures AllValid(txs, c.utxo) ==> NoInnerSpend(txs)
    ensures AllValid(txs, c.utxo) && NoDoubleSpend(txs) <==> ValidInTurn(height, c, txs) && NoInnerSpend(txs)
  {
    if AllValid(txs, c.utxo) {
      ValidInputsExist(txs, c.utxo);
    }
    if txs != [] {
      var init, last := txs[..|txs| - 1], txs[|txs| - 1];
      assert txs == init + [last];
      OneSnapshotOrInTurn(height, c, init);
      if NoInnerSpend(txs) {
        ValidAtItsTurn(height, c, init, last);
      }
    }
  }

  // ── Two blocks on one parent ───────────────────────────────────────────────

  lemma {:induction false} TxInsWithin(txs: seq<Transaction>, tx: Transaction)
    requires tx in txs
    ensures Ins(tx) <= TxsIns(txs)
  {
    forall ref | ref in Ins(tx) ensures ref in TxsIns(txs) {
      TxsInsMember(txs, ref);
    }
  }

  /** Coins seen from above `tip` and from below it, at an output that `tip` neither creates nor spends. */
  lemma SeenThroughTip(height: nat, c: Coins, tip: seq<Transaction>, tx: Transaction)
    requires NoInnerSpend(tip)
    requires Ins(tx) !! TxsOuts(tip) && Ins(tx) !! TxsIns(tip)
    ensures ValidTx(tx, ApplyTxs(height, c, tip).utxo) <==> ValidTx(tx, c.utxo)
  {
    forall ref | ref in Ins(tx)
      ensures var u := ApplyTxs(height, c, tip).utxo;
              (ref in u <==> ref in c.utxo) && (ref in u ==> u[ref] == c.utxo[ref])
    {
      AppliedRef(height, c, tip, ref);
    }
    ValidTxFrame(tx, ApplyTxs(height, c, tip).utxo, c.utxo);
  }

  /**
   Fork choice checks a rival while the old tip is still applied. What passes
   there is valid on the parent exactly when it spends no output of the old tip.
   */
  lemma RivalOnParent(height: nat, c: Coins, tip: seq<Transaction>, rival: seq<Transaction>)
    requires FreshOuts(c.utxo, tip) && AllValid(tip, c.utxo)
    requires AllValid(rival, ApplyTxs(height, c, tip).utxo)
    ensures AllValid(rival, c.utxo) <==> TxsIns(rival) !! TxsOuts(tip)
  {
    ValidInputsExist(tip, c.utxo);
    ValidInputsExist(rival, ApplyTxs(height, c, tip).utxo);
    if AllValid(rival, c.utxo) {
      ValidInputsExist(rival, c.utxo);
    }
    if TxsIns(rival) !! TxsOuts(tip) {
      forall tx | tx in rival ensures ValidTx(tx, c.utxo) {
        TxInsWithin(rival, tx);
        forall ref | ref in Ins(tx) ensures ref !in TxsIns(tip) {
          AppliedRef(height, c, tip, ref);
        }
        SeenThroughTip(height, c, tip, tx);
      }
    }
  }

  /**
   The other direction: a rival that is valid on the parent passes the fork
   check exactly when it shares no input with the old tip.
   */
  lemma RivalThroughTip(height: nat, c: Coins, tip: seq<Transaction>, rival: seq<Transaction>)
    requires FreshOuts(c.utxo, tip) && AllValid(tip, c.utxo)
    requires AllValid(rival, c.utxo)
    ensures AllValid(rival, ApplyTxs(height, c, tip).utxo) <==> TxsIns(rival) !! TxsIns(tip)
  {
    ValidInputsExist(tip, c.utxo);
    ValidInputsExist(rival, c.utxo);
    if AllValid(rival, ApplyTxs(height, c, tip).utxo) {
      ValidInputsExist(rival, ApplyTxs(height, c, tip).utxo);
      forall ref | ref in TxsIns(rival) ensures ref !in TxsIns(tip) {
        AppliedRef(height, c, tip, ref);
      }
    }
    if TxsIns(rival) !! TxsIns(tip) {
      forall tx | tx in rival ensures ValidTx(tx, ApplyTxs(height, c, tip).utxo) {
        TxInsWithin(rival, tx);
        SeenThroughTip(height, c, tip, tx);
      }
    }
  }

  // ── One block ──────────────────────────────────────────────────────────────

  datatype BlockError =
    | BadHeight
    | BadParentHash
    | BadTimestamp
    | TimestampBeyondSlot
    | NoValidators
    | ProposerMismatch
    | BadSignature
    | BadMerkleRoot
    | InvalidTransaction

  /** First second after a slot, with the casts and the unchecked i64 product of the code. */
  function SlotEnd(p: Params, slot: U64): I64 {
    WrapI64(WrapI64(WrapI64(slot) + 1) * WrapI64(p.slotDuration))
  }

  /** Everything `validate_block` checks before the transactions, in its order. */
  function HeaderVerdict(p: Params, block: Block, parent: Block, active: seq<Validator>): Result<(), BlockError> {
    var h := block.header;
    var elected := Election.Elect(p, h.slot, BlockHash(parent), active);
    if h.height != parent.header.height + 1 then Err(BadHeight)
    else if h.prevHash != BlockHash(parent) then Err(BadParentHash)
    else if h.timestamp < parent.header.timestamp then Err(BadTimestamp)
    else if h.timestamp >= SlotEnd(p, h.slot) then Err(TimestampBeyondSlot)
    else if elected.None? then Err(NoValidators)
    else if elected.value.address != h.proposer then Err(ProposerMismatch)
    else if !Verify(elected.value.pubkey, HeaderBytes(h), block.signature) then Err(BadSignature)
    else if h.merkleRoot != Merkle.MerkleRoot(block.txs) then Err(BadMerkleRoot)
    else Ok(())
  }

  function BlockVerdict(
    p: Params, block: Block, parent: Block, utxo: Utxo, registry: Validators.Registry): Result<(), BlockError>
  {
    var verdict := HeaderVerdict(p, block, parent, Validators.ActiveList(registry, block.header.slot));
    if verdict.Ok? && !AllValid(block.txs, utxo) then Err(InvalidTransaction) else verdict
  }

  method ValidateBlock(
    p: Params, block: Block, parent: Block, utxo: Utxo, registry: Validators.Registry, active: seq<Validator>)
    returns (r: Result<(), BlockError>)
    requires active == Validators.ActiveList(registry, block.header.slot)
    ensures r == BlockVerdict(p, block, parent, utxo, registry)
  {
    var h := block.header;
    if h.height != parent.header.height + 1 {
      return Err(BadHeight);
    }
    if h.prevHash != BlockHash(parent) {
      return Err(BadParentHash);
    }
    if h.timestamp < parent.header.timestamp {
      return Err(BadTimestamp);
    }
    if h.timestamp >= SlotEnd(p, h.slot) {
      return Err(TimestampBeyondSlot);
    }
    var elected := Election.ElectProposer(p, h.slot, BlockHash(parent), active);
    if elected.None? {
      return Err(NoValidators);
    }
    if elected.value.address != h.proposer {
      return Err(ProposerMismatch);
    }
    if !Verify(elected.value.pubkey, HeaderBytes(h), block.signature) {
      return Err(BadSignature);
    }
    var computed := Merkle.ComputeMerkleRoot(block.txs);
    if h.merkleRoot != computed {
      return Err(BadMerkleRoot);
    }
    for i := 0 to |block.txs|
      invariant forall j :: 0 <= j < i ==> ValidTx(block.txs[j], utxo)
    {
      var verdict := ValidateTransaction(block.txs[i], utxo);
      if verdict.Err? {
        assert block.txs[i] in block.txs;
        return Err(InvalidTransaction);
      }
    }
    return Ok(());
  }

  // ── Who may propose ────────────────────────────────────────────────────────

  /** The validator elected for the slot on this parent is the proposer named, and has signed the header. */
  ghost predicate SignedByElected(p: Params, block: Block, parent: Block, registry: Validators.Registry) {
    var h := block.header;
    var elected := Election.Elect(p, h.slot, OfHeader(parent.header), Validators.ActiveList(registry, h.slot));
    && elected.Some? && elected.value.address == h.proposer
    && exists key :: elected.value.pubkey == VerifyingKey(key) && block.signature == Sign(key, HeaderBytes(h))
  }

  /** From the parent's time on, and before the slot ends. */
  predicate Timely(p: Params, block: Block, parent: Block) {
    parent.header.timestamp <= block.header.timestamp < SlotEnd(p, block.header.slot)
  }

  /** What a valid block is. */
  lemma ValidBlockIs(p: Params, block: Block, parent: Block, utxo: Utxo, registry: Validators.Registry)
    ensures BlockVerdict(p, block, parent, utxo, registry) == Ok(()) <==>
      && block.header.height == parent.header.height + 1 && block.header.prevHash == OfHeader(parent.header)
      && Timely(p, block, parent) && SignedByElected(p, block, parent, registry)
      && block.header.merkleRoot == Merkle.MerkleRoot(block.txs)
      && forall i :: 0 <= i < |block.txs| ==> ValidTx(block.txs[i], utxo)
  {
    var h := block.header;
    var elected := Election.Elect(p, h.slot, OfHeader(parent.header), Validators.ActiveList(registry, h.slot));
    if elected.Some? && Verify(elected.value.pubkey, HeaderBytes(h), block.signature) {
      var key := elected.value.pubkey.key;
      assert elected.value.pubkey == VerifyingKey(key) && block.signature == Sign(key, HeaderBytes(h));
    }
    assert forall i :: 0 <= i < |block.txs| ==> block.txs[i] in block.txs;
  }

  /** Which check fails first, when one does. */
  ghost predicate Condemns(
    e: BlockError, p: Params, block: Block, parent: Block, utxo: Utxo, registry: Validators.Registry)
  {
    var h := block.header;
    var elected := Election.Elect(p, h.slot, OfHeader(parent.header), Validators.ActiveList(registry, h.slot));
    var placed := h.height == parent.header.height + 1 && h.prevHash == OfHeader(parent.header);
    match e
    case BadHeight => h.height != parent.header.height + 1
    case BadParentHash => h.height == parent.header.height + 1 && h.prevHash != OfHeader(parent.header)
    case BadTimestamp => placed && h.timestamp < parent.header.timestamp
    case TimestampBeyondSlot => placed && parent.header.timestamp <= h.timestamp && h.timestamp >= SlotEnd(p, h.slot)
    case NoValidators => placed && Timely(p, block, parent) && elected.None?
    case ProposerMismatch =>
      placed && Timely(p, block, parent) && elected.Some? && elected.value.address != h.proposer
    case BadSignature =>
      && placed && Timely(p, block, parent) && elected.Some? && elected.value.address == h.proposer
      && forall key :: elected.value.pubkey == VerifyingKey(key) ==> block.signature != Sign(key, HeaderBytes(h))
    case BadMerkleRoot =>
      && placed && Timely(p, block, parent) && SignedByElected(p, block, parent, registry)
      && h.merkleRoot != Merkle.MerkleRoot(block.txs)
    case InvalidTransaction =>
      && placed && Timely(p, block, parent) && SignedByElected(p, block, parent, registry)
      && h.merkleRoot == Merkle.MerkleRoot(block.txs)
      && exists i :: 0 <= i < |block.txs| && !ValidTx(block.txs[i], utxo)
  }

  lemma InvalidBlockIs(p: Params, block: Block, parent: Block, utxo: Utxo, registry: Validators.Registry)
    requires BlockVerdict(p, block, parent, utxo, registry).Err?
    ensures Condemns(BlockVerdict(p, block, parent, utxo, registry).error, p, block, parent, utxo, registry)
  {
    var h := block.header;
    var elected := Election.Elect(p, h.slot, OfHeader(parent.header), Validators.ActiveList(registry, h.slot));
    if elected.Some? && Verify(elected.value.pubkey, HeaderBytes(h), block.signature) {
      var key := elected.value.pubkey.key;
      assert elected.value.pubkey == VerifyingKey(key) && block.signature == Sign(key, HeaderBytes(h));
    }
  }
}
