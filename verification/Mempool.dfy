/**
 The pool of unconfirmed transactions: three indexes kept in step, and a bounded
 pool that holds the most valuable transactions it was ever offered.
 */
module Mempools {
  import opened Types
  import opened Ledger
  import Sorting
  import Validation

  /** The pooled transactions by hash. */
  type Pool = map<Digest, Transaction>

  function InFlightOf(pool: Pool): set<TxOutRef> {
    set h, ref | h in pool && ref in Ins(pool[h]) :: ref
  }

  function ValuesOf(pool: Pool): map<Digest, U64> {
    map h | h in pool :: OutTotal64(pool[h].outputs)
  }

  /** Each transaction under its own hash, and no two naming one output. */
  ghost predicate GoodPool(pool: Pool) {
    && (forall h :: h in pool ==> TxHash(pool[h]) == h)
    && (forall g, h :: g in pool && h in pool && g != h ==> Ins(pool[g]) !! Ins(pool[h]))
  }

  /** No pooled transaction is worth less. Among several such the hash map may yield any. */
  ghost predicate IsCheapest(pool: Pool, h: Digest) {
    h in pool && forall g :: g in pool ==> OutTotal64(pool[h].outputs) <= OutTotal64(pool[g].outputs)
  }

  datatype PoolError = Invalid(reason: Validation.TxError) | DoubleSpend | AtCapacity
  datatype AddedToPool = AddedToPool(value: U64, poolSize: nat, evicted: Option<Digest>, newlyAdded: bool)

  /** Everything `add` may do with an offered transaction. */
  ghost predicate AddStep(
    pool: Pool, maxSize: nat, tx: Transaction, utxo: Utxo, after: Pool, r: Result<AddedToPool, PoolError>)
  {
    var hash, value := TxHash(tx), WrapU64(OutTotal(tx.outputs));
    if hash in pool then
      after == pool && r == Ok(AddedToPool(value, |pool|, None, false))
    else if !Validation.ValidTx(tx, utxo) then
      after == pool && r.Err? && r.error.Invalid? && Validation.Explains(r.error.reason, tx, utxo)
    else if !(Ins(tx) !! InFlightOf(pool)) then
      after == pool && r == Err(DoubleSpend)
    else if |pool| < maxSize then
      after == pool[hash := tx] && r == Ok(AddedToPool(value, |after|, None, true))
    else if exists h :: IsCheapest(pool, h) && OutTotal64(pool[h].outputs) < value then
      exists h ::
        && IsCheapest(pool, h) && after == (pool - {h})[hash := tx]
        && r == Ok(AddedToPool(value, |after|, Some(h), true))
    else
      after == pool && r == Err(AtCapacity)
  }

  function RemoveAll(pool: Pool, hashes: seq<Digest>): Pool {
    pool - (set h | h in hashes)
  }

  lemma RemoveAllStep(pool: Pool, hashes: seq<Digest>, k: nat)
    requires k < |hashes|
    ensures RemoveAll(pool, hashes[..k + 1]) == RemoveAll(pool, hashes[..k]) - {hashes[k]}
  {
    assert hashes[..k + 1] == hashes[..k] + [hashes[k]];
  }

  lemma WithoutOne(pool: Pool, h: Digest)
    requires GoodPool(pool) && h in pool
    ensures GoodPool(pool - {h})
    ensures InFlightOf(pool - {h}) == InFlightOf(pool) - Ins(pool[h])
    ensures ValuesOf(pool - {h}) == ValuesOf(pool) - {h}
  {
    var less := pool - {h};
    forall ref ensures ref in InFlightOf(less) <==> ref in InFlightOf(pool) - Ins(pool[h]) {
      if ref in InFlightOf(pool) && ref !in Ins(pool[h]) {
        var g :| g in pool && ref in Ins(pool[g]);
        assert g in less && ref in Ins(less[g]);
      }
    }
  }

  lemma FewerInFlight(pool: Pool, h: Digest)
    ensures InFlightOf(pool - {h}) <= InFlightOf(pool)
  {
    forall ref | ref in InFlightOf(pool - {h}) ensures ref in InFlightOf(pool) {
      var g :| g in pool - {h} && ref in Ins((pool - {h})[g]);
      assert g in pool && ref in Ins(pool[g]);
    }
  }

  lemma WithOneInFlight(pool: Pool, tx: Transaction)
    requires TxHash(tx) !in pool
    ensures InFlightOf(pool[TxHash(tx) := tx]) == InFlightOf(pool) + Ins(tx)
  {
    var more := pool[TxHash(tx) := tx];
    forall ref | ref in InFlightOf(pool) ensures ref in InFlightOf(more) {
      var g :| g in pool && ref in Ins(pool[g]);
      assert g in more && ref in Ins(more[g]);
    }
    forall ref | ref in Ins(tx) ensures ref in InFlightOf(more) {
      assert TxHash(tx) in more && ref in Ins(more[TxHash(tx)]);
    }
  }

  lemma WithOneGood(pool: Pool, tx: Transaction)
    requires GoodPool(pool) && TxHash(tx) !in pool && Ins(tx) !! InFlightOf(pool)
    ensures GoodPool(pool[TxHash(tx) := tx])
  {
    forall h | h in pool ensures Ins(pool[h]) !! Ins(tx) {
      assert forall ref :: ref in Ins(pool[h]) ==> ref in InFlightOf(pool);
    }
  }

  lemma WithOneValues(pool: Pool, tx: Transaction)
    ensures ValuesOf(pool[TxHash(tx) := tx]) == ValuesOf(pool)[TxHash(tx) := OutTotal64(tx.outputs)]
  {
  }

  lemma SizeWith(pool: Pool, h: Digest, tx: Transaction)
    ensures h !in pool ==> |pool[h := tx]| == |pool| + 1
    ensures h in pool ==> |pool - {h}| == |pool| - 1
  {
    assert pool[h := tx].Keys == pool.Keys + {h};
    assert (pool - {h}).Keys == pool.Keys - {h};
    assert |pool.Keys| == |pool|;
    assert |(pool - {h}).Keys| == |pool - {h}|;
    assert |pool[h := tx].Keys| == |pool[h := tx]|;
  }

  // ── Draining ───────────────────────────────────────────────────────────────

  ghost predicate Lists(pool: Pool, list: seq<Transaction>) {
    && |list| == |pool|
    && (forall tx :: tx in list <==> TxHash(tx) in pool)
    && (forall i, j :: 0 <= i < j < |list| ==> list[i] != list[j])
  }

  function Dearness(tx: Transaction): int {
    var value: int := OutTotal64(tx.outputs);
    -value
  }

  /** Distinct pooled transactions in descending value, none worth less than one left out. */
  ghost predicate Drained(pool: Pool, picked: seq<Transaction>) {
    && (forall tx :: tx in picked ==> TxHash(tx) in pool)
    && (forall i, j :: 0 <= i < j < |picked| ==>
          picked[i] != picked[j] && OutTotal64(picked[i].outputs) >= OutTotal64(picked[j].outputs))
    && (forall h, tx :: h in pool && pool[h] !in picked && tx in picked ==>
          OutTotal64(pool[h].outputs) <= OutTotal64(tx.outputs))
  }

  lemma ListedSorted(pool: Pool, list: seq<Transaction>, sorted: seq<Transaction>)
    requires GoodPool(pool) && Lists(pool, list)
    requires multiset(sorted) == multiset(list) && Sorting.SortedBy(sorted, Dearness)
    ensures |sorted| == |pool|
    ensures forall n :: 0 <= n <= |sorted| ==> Drained(pool, sorted[..n])
  {
    Sorting.SameElements(sorted, list);
    forall i, j | 0 <= i < j < |sorted|
      ensures sorted[i] != sorted[j] && OutTotal64(sorted[i].outputs) >= OutTotal64(sorted[j].outputs)
    {
      assert Dearness(sorted[i]) <= Dearness(sorted[j]);
      if sorted[i] == sorted[j] {
        Sorting.Twice(sorted, i, j);
        Sorting.Once(list, sorted[i]);
      }
    }
    forall n | 0 <= n <= |sorted| ensures Drained(pool, sorted[..n]) {
      forall h, tx | h in pool && pool[h] !in sorted[..n] && tx in sorted[..n]
        ensures OutTotal64(pool[h].outputs) <= OutTotal64(tx.outputs)
      {
        assert pool[h] in sorted;
        var j :| 0 <= j < |sorted| && sorted[j] == pool[h];
        var i :| 0 <= i < n && sorted[i] == tx;
        assert j >= n;
      }
    }
  }

  class Mempool {
    var txs: Pool
    var inFlight: set<TxOutRef>
    var values: map<Digest, U64>
    const maxSize: nat

    /** The other two indexes are what the first one makes them, and the pool is within its capacity. */
    ghost predicate Valid()
      reads this
    {
      GoodPool(txs) && inFlight == InFlightOf(txs) && values == ValuesOf(txs) && |txs| <= maxSize
    }

    constructor (capacity: nat)
      ensures Valid() && txs == map[] && maxSize == capacity
    {
      txs, inFlight, values := map[], {}, map[];
      maxSize := capacity;
    }

    method Add(tx: Transaction, utxo: Utxo) returns (r: Result<AddedToPool, PoolError>)
      requires Valid()
      modifies this
      ensures Valid()
      ensures AddStep(old(txs), maxSize, tx, utxo, txs, r)
    {
      var hash := TxHash(tx);
      if hash in txs {
        return Ok(AddedToPool(values[hash], |txs|, None, false));
      }
      var verdict := Validation.ValidateTransaction(tx, utxo);
      if verdict.Err? {
        return Err(Invalid(verdict.error));
      }
      var clash := AnyIn(tx, inFlight);
      if clash {
        return Err(DoubleSpend);
      }
      var value := OutTotal64(tx.outputs);
      var room, evicted := MakeRoom(value);
      if !room {
        return Err(AtCapacity);
      }
      assert Ins(tx) !! inFlight by {
        if evicted.Some? {
          FewerInFlight(old(txs), evicted.value);
        }
      }
      Put(tx, value);
      return Ok(AddedToPool(value, |txs|, evicted, true));
    }

    /** Evict the cheapest pooled transaction if the pool is full and the newcomer is worth more. */
    method MakeRoom(value: U64) returns (room: bool, evicted: Option<Digest>)
      requires Valid()
      modifies this
      ensures Valid()
      ensures room ==> |txs| < maxSize
      ensures |old(txs)| < maxSize ==> room && evicted == None && txs == old(txs)
      ensures |old(txs)| >= maxSize && room ==>
        && evicted.Some? && IsCheapest(old(txs), evicted.value)
        && OutTotal64(old(txs)[evicted.value].outputs) < value
        && txs == old(txs) - {evicted.value}
      ensures !room ==>
        txs == old(txs) && |txs| >= maxSize && forall h :: IsCheapest(txs, h) ==> value <= OutTotal64(txs[h].outputs)
    {
      room, evicted := true, None;
      if |txs| >= maxSize {
        if values == map[] {
          assert txs.Keys == values.Keys;
          return false, None;
        }
        var cheapest := PickCheapest(txs, values);
        if value <= values[cheapest] {
          return false, None;
        }
        evicted := Some(cheapest);
        SizeWith(txs, cheapest, txs[cheapest]);
        RemoveOne(cheapest);
      }
    }

    static method PickCheapest(pool: Pool, values: map<Digest, U64>) returns (cheapest: Digest)
      requires values == ValuesOf(pool) && pool != map[]
      ensures IsCheapest(pool, cheapest)
    {
      assert values.Keys == pool.Keys;
      cheapest :| cheapest in values;
      var rest := values.Keys;
      while rest != {}
        invariant rest <= values.Keys && cheapest in values
        invariant forall h :: h in values && h !in rest ==> values[cheapest] <= values[h]
        decreases rest
      {
        var h :| h in rest;
        rest := rest - {h};
        if values[h] < values[cheapest] {
          cheapest := h;
        }
      }
    }

    method Put(tx: Transaction, value: U64)
      requires Valid() && |txs| < maxSize
      requires TxHash(tx) !in txs && Ins(tx) !! inFlight && value == OutTotal64(tx.outputs)
      modifies this
      ensures Valid()
      ensures txs == old(txs)[TxHash(tx) := tx]
    {
      WithOneGood(txs, tx);
      WithOneInFlight(txs, tx);
      WithOneValues(txs, tx);
      SizeWith(txs, TxHash(tx), tx);
      inFlight := AddInputs(inFlight, tx);
      values := values[TxHash(tx) := value];
      txs := txs[TxHash(tx) := tx];
    }

    static method AddInputs(refs: set<TxOutRef>, tx: Transaction) returns (more: set<TxOutRef>)
      ensures more == refs + Ins(tx)
    {
      more := refs;
      for k := 0 to |tx.inputs|
        invariant more == refs + InRefs(tx.inputs[..k])
      {
        assert tx.inputs[..k + 1][..k] == tx.inputs[..k];
        more := more + {tx.inputs[k].outRef};
      }
      assert tx.inputs[..|tx.inputs|] == tx.inputs;
      InRefsAreIns(tx);
    }

    static method AnyIn(tx: Transaction, refs: set<TxOutRef>) returns (found: bool)
      ensures found <==> !(Ins(tx) !! refs)
    {
      for k := 0 to |tx.inputs|
        invariant forall j :: 0 <= j < k ==> tx.inputs[j].outRef !in refs
      {
        if tx.inputs[k].outRef in refs {
          assert tx.inputs[k] in tx.inputs;
          assert tx.inputs[k].outRef in Ins(tx);
          return true;
        }
      }
      return false;
    }

    /** Called after a block was included. */
    method Remove(hashes: seq<Digest>)
      requires Valid()
      modifies this
      ensures Valid()
      ensures txs == RemoveAll(old(txs), hashes)
    {
      for k := 0 to |hashes|
        invariant Valid()
        invariant txs == RemoveAll(old(txs), hashes[..k])
      {
        RemoveAllStep(old(txs), hashes, k);
        RemoveOne(hashes[k]);
      }
      assert hashes[..|hashes|] == hashes;
    }

    method RemoveOne(hash: Digest)
      requires Valid()
      modifies this
      ensures Valid()
      ensures txs == old(txs) - {hash}
    {
      if hash in txs {
        WithoutOne(txs, hash);
        SizeWith(txs, hash, txs[hash]);
        var tx := txs[hash];
        txs := txs - {hash};
        inFlight := DropInputs(inFlight, tx);
        values := values - {hash};
      }
    }

    static method DropInputs(refs: set<TxOutRef>, tx: Transaction) returns (left: set<TxOutRef>)
      ensures left == refs - Ins(tx)
    {
      left := refs;
      for k := 0 to |tx.inputs|
        invariant left == refs - InRefs(tx.inputs[..k])
      {
        assert tx.inputs[..k + 1][..k] == tx.inputs[..k];
        left := left - {tx.inputs[k].outRef};
      }
      assert tx.inputs[..|tx.inputs|] == tx.inputs;
      InRefsAreIns(tx);
    }

    /** The pool itself is left alone. */
    method Drain(max: nat) returns (picked: seq<Transaction>)
      requires Valid()
      ensures |picked| == Min(max, |txs|) && Drained(txs, picked)
    {
      var byValue := Listed();
      var sorted := Sorting.SortUnstableByKey(byValue, Dearness);
      ListedSorted(txs, byValue, sorted);
      picked := sorted[..Min(max, |sorted|)];
    }

    /** Every pooled transaction once, in whatever order the index holds them. */
    method Listed() returns (list: seq<Transaction>)
      requires Valid()
      ensures Lists(txs, list)
    {
      list := [];
      var rest := txs.Keys;
      while rest != {}
        invariant rest <= txs.Keys && |list| + |rest| == |txs.Keys|
        invariant forall tx :: tx in list <==> TxHash(tx) in txs && TxHash(tx) !in rest
        invariant forall i, j :: 0 <= i < j < |list| ==> list[i] != list[j]
        decreases rest
      {
        var h :| h in rest;
        assert forall tx :: tx in list ==> tx != txs[h];
        list := list + [txs[h]];
        rest := rest - {h};
      }
    }
  }
}
