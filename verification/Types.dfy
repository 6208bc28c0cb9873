/**
 The data of the BetterCallChain ledger.

 Hashing and signing are symbolic: a digest is the term that was hashed and a
 signature is the term that was signed, so hashing is injective, the preimages
 of different kinds are distinct, and a signature verifies exactly when it was
 made with the matching key over the same message. The only thing a term does
 not say is the byte value of a digest; `Params` carries that.
 */
module Types {

  datatype Option<+T> = None | Some(value: T)

  datatype Result<+T, +E> = Ok(value: T) | Err(error: E)

  const U64_MAX: nat := 0xFFFF_FFFF_FFFF_FFFF
  const I64_MIN: int := -0x8000_0000_0000_0000
  const I64_MAX: int := 0x7FFF_FFFF_FFFF_FFFF

  type U64 = n: nat | n <= U64_MAX
  type I64 = n: int | I64_MIN <= n <= I64_MAX

  /** Unchecked u64 arithmetic, as in a release build. */
  function WrapU64(n: nat): U64 {
    n % (U64_MAX + 1)
  }

  lemma WrapWrapped(a: nat, b: nat)
    ensures WrapU64(WrapU64(a) + b) == WrapU64(a + b)
  {
  }

  /** Unchecked i64 arithmetic, and the `as i64` cast. */
  function WrapI64(n: int): I64 {
    (n - I64_MIN) % (U64_MAX + 1) + I64_MIN
  }

  /** Both leave a number of their type that differs by a multiple of 2^64. */
  lemma WrapsAround(n: int) returns (q: int, k: int)
    ensures WrapI64(n) == n - q * 0x1_0000_0000_0000_0000
    ensures n >= 0 ==> WrapU64(n) == n - k * 0x1_0000_0000_0000_0000
  {
    q := (n - I64_MIN) / (U64_MAX + 1);
    k := n / (U64_MAX + 1);
  }

  function SaturatingAdd(a: U64, b: U64): U64 {
    if a + b <= U64_MAX then a + b else U64_MAX
  }

  function Min(a: nat, b: nat): nat {
    if a <= b then a else b
  }

  function Pow2(k: nat): (p: nat)
    ensures p > 0
  {
    if k == 0 then 1 else 2 * Pow2(k - 1)
  }

  // ── Keys, addresses, signatures ────────────────────────────────────────────

  /** Addresses are compared as strings of one fixed length; the number is their rank. */
  type Address = nat

  datatype SecretKey = SecretKey(id: nat)
  datatype PublicKey = PublicKey(key: SecretKey)

  function VerifyingKey(key: SecretKey): PublicKey {
    PublicKey(key)
  }

  function AddressOf(pubkey: PublicKey): Address {
    pubkey.key.id
  }

  /** The two kinds of bytes that get signed. */
  datatype Message =
    | TxSigning(kind: TxKind, refs: seq<TxOutRef>, outputs: seq<TxOutput>)
    | HeaderBytes(header: BlockHeader)

  datatype Signature = Garbage(bytes: nat) | Signed(key: SecretKey, message: Message)

  const ZERO_SIGNATURE: Signature := Garbage(0)

  function Sign(key: SecretKey, message: Message): Signature {
    Signed(key, message)
  }

  predicate Verify(pubkey: PublicKey, message: Message, signature: Signature) {
    signature == Signed(pubkey.key, message)
  }

  // ── Digests ────────────────────────────────────────────────────────────────

  datatype Digest =
    | ZeroDigest
    | OfText(text: string)
    | OfTx(tx: Transaction)
    | OfHeader(header: BlockHeader)
    | OfPair(left: Digest, right: Digest)
    | OfSeed(prevHash: Digest, slot: U64)

  /**
   What every node of one network agrees on. `digestValue` reads a digest as a
   big-endian number, which is how digests compare; `digestPrefix` reads its
   first eight bytes as a little-endian u64, which is how the election draws.
   */
  datatype Params = Params(slotDuration: U64, digestValue: Digest -> nat, digestPrefix: Digest -> U64)

  // ── Transactions and blocks ────────────────────────────────────────────────

  datatype TxKind = Transfer | Stake(amount: U64) | Unstake(amount: U64)
  datatype TxOutRef = TxOutRef(txHash: Digest, index: nat)
  datatype TxInput = TxInput(outRef: TxOutRef, signature: Signature, pubkey: PublicKey)
  datatype TxOutput = TxOutput(amount: U64, address: Address)
  datatype Transaction = Transaction(kind: TxKind, inputs: seq<TxInput>, outputs: seq<TxOutput>)

  datatype BlockHeader = BlockHeader(
    prevHash: Digest, merkleRoot: Digest, timestamp: I64, height: nat, slot: U64, proposer: Address)
  datatype Block = Block(header: BlockHeader, signature: Signature, txs: seq<Transaction>)

  datatype Validator = Validator(address: Address, pubkey: PublicKey, stake: U64, activeSince: U64)

  function TxHash(tx: Transaction): Digest {
    OfTx(tx)
  }

  /** The header alone is hashed; the proposer signature is not part of a block's identity. */
  function BlockHash(block: Block): Digest {
    OfHeader(block.header)
  }

  function TxHashes(txs: seq<Transaction>): (r: seq<Digest>) {
    seq(|txs|, i requires 0 <= i < |txs| => TxHash(txs[i]))
  }

  function InputRefs(tx: Transaction): (r: seq<TxOutRef>) {
    seq(|tx.inputs|, i requires 0 <= i < |tx.inputs| => tx.inputs[i].outRef)
  }

  /** What every input of a transaction signs: everything but the signatures themselves. */
  function TxSigningBytes(tx: Transaction): Message {
    TxSigning(tx.kind, InputRefs(tx), tx.outputs)
  }

  /** Sum of the output amounts, as an exact number. */
  function OutTotal(outputs: seq<TxOutput>): nat {
    if outputs == [] then 0 else OutTotal(outputs[..|outputs| - 1]) + outputs[|outputs| - 1].amount
  }

  /** The sum as the code computes it. */
  function OutTotal64(outputs: seq<TxOutput>): U64 {
    WrapU64(OutTotal(outputs))
  }
}
