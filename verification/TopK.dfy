/**
 The mempool as a streaming top-k: whatever order transactions arrive in, the
 pooled values are the `maxSize` largest of all values offered.
 */
module TopK {
  import opened Types
  import opened Ledger
  import Validation
  import opened Mempools

  type Values = multiset<nat>

  /** `top` holds the `k` largest elements of `all`. */
  ghost predicate IsTop(top: Values, all: Values, k: nat) {
    && top <= all
    && |top| == Min(k, |all|)
    && forall x, y :: x in top && y in all - top ==> y <= x
  }

  lemma {:induction false} SubSameSize(a: Values, b: Values)
    requires a <= b && |a| == |b|
    ensures a == b
  {
    assert b == a + (b - a);
    assert |b - a| == 0;
    assert b - a == multiset{};
  }

  lemma SurplusOf(a: Values, b: Values, all: Values) returns (x: nat)
    requires a <= all && !(a <= b)
    ensures a[x] > b[x] && x in a && x in all - b
  {
    x :| a[x] > b[x];
  }

  /** There is one such selection only. */
  lemma TopUnique(a: Values, b: Values, all: Values, k: nat)
    requires IsTop(a, all, k) && IsTop(b, all, k)
    ensures a == b
  {
    if a <= b {
      SubSameSize(a, b);
    } else if b <= a {
      SubSameSize(b, a);
    } else {
      var x := SurplusOf(a, b, all);
      var y := SurplusOf(b, a, all);
    }
  }

  // ── The values in a pool ───────────────────────────────────────────────────

  ghost function Worth(pool: Pool): Values {
    if pool == map[] then multiset{}
    else
      var h :| h in pool;
      Worth(pool - {h}) + multiset{OutTotal64(pool[h].outputs)}
  }

  lemma {:induction false} WorthWithout(pool: Pool, h: Digest)
    requires h in pool
    ensures Worth(pool) == Worth(pool - {h}) + multiset{OutTotal64(pool[h].outputs)}
  {
    var first :| first in pool && Worth(pool) == Worth(pool - {first}) + multiset{OutTotal64(pool[first].outputs)};
    if first != h {
      WorthWithout(pool - {first}, h);
      WorthWithout(pool - {h}, first);
      SwapRemovals(pool, first, h);
    }
  }

  lemma SwapRemovals(pool: Pool, g: Digest, h: Digest)
    ensures pool - {g} - {h} == pool - {h} - {g}
  {
  }

  lemma WorthWith(pool: Pool, h: Digest, tx: Transaction)
    requires h !in pool
    ensures Worth(pool[h := tx]) == Worth(pool) + multiset{OutTotal64(tx.outputs)}
  {
    WorthWithout(pool[h := tx], h);
    assert pool[h := tx] - {h} == pool;
  }

  lemma {:induction false} WorthSize(pool: Pool)
    ensures |Worth(pool)| == |pool|
  {
    if pool != map[] {
      var h :| h in pool;
      WorthWithout(pool, h);
      WorthSize(pool - {h});
      SizeWith(pool, h, pool[h]);
    }
  }

  lemma {:induction false} WorthMember(pool: Pool, x: nat)
    ensures x in Worth(pool) <==> exists h :: h in pool && OutTotal64(pool[h].outputs) == x
  {
    if pool != map[] {
      var h :| h in pool;
      WorthWithout(pool, h);
      WorthMember(pool - {h}, x);
      assert forall g :: g in pool ==> g == h || (g in pool - {h} && (pool - {h})[g] == pool[g]);
    }
  }

  // ── One offer ──────────────────────────────────────────────────────────────

  lemma TopGrows(top: Values, all: Values, k: nat, v: nat)
    requires IsTop(top, all, k) && |top| < k
    ensures IsTop(top + multiset{v}, all + multiset{v}, k)
  {
    SubSameSize(top, all);
  }

  lemma TopKeeps(top: Values, all: Values, k: nat, v: nat)
    requires IsTop(top, all, k) && |top| >= k
    requires forall x :: x in top ==> v <= x
    ensures IsTop(top, all + multiset{v}, k)
  {
    assert all + multiset{v} - top == all - top + multiset{v};
  }

  lemma TopSwaps(top: Values, all: Values, k: nat, v: nat, least: nat)
    requires IsTop(top, all, k) && |top| >= k
    requires least in top && least < v && forall x :: x in top ==> least <= x
    ensures IsTop(top - multiset{least} + multiset{v}, all + multiset{v}, k)
  {
    var next := top - multiset{least} + multiset{v};
    assert all + multiset{v} - next == all - top + multiset{least};
  }

  /** A valid transaction that is new to the pool and clashes with nothing in it. */
  ghost predicate Offered(pool: Pool, tx: Transaction, utxo: Utxo) {
    TxHash(tx) !in pool && Validation.ValidTx(tx, utxo) && Ins(tx) !! InFlightOf(pool)
  }

  lemma AddKeepsTop(
    pool: Pool, maxSize: nat, tx: Transaction, utxo: Utxo, after: Pool, r: Result<AddedToPool, PoolError>, all: Values)
    requires AddStep(pool, maxSize, tx, utxo, after, r) && Offered(pool, tx, utxo) && |pool| <= maxSize
    requires IsTop(Worth(pool), all, maxSize)
    ensures IsTop(Worth(after), all + multiset{OutTotal64(tx.outputs)}, maxSize)
  {
    var hash, v := TxHash(tx), OutTotal64(tx.outputs);
    WorthSize(pool);
    if |pool| < maxSize {
      WorthWith(pool, hash, tx);
      TopGrows(Worth(pool), all, maxSize, v);
    } else if exists h :: IsCheapest(pool, h) && OutTotal64(pool[h].outputs) < v {
      var h :| IsCheapest(pool, h) && after == (pool - {h})[hash := tx];
      CheapestSame(pool, h, v);
      SwapKeepsTop(pool, maxSize, h, tx, all);
    } else {
      NothingCheaper(pool, v);
      TopKeeps(Worth(pool), all, maxSize, v);
    }
  }

  lemma SwapKeepsTop(pool: Pool, maxSize: nat, h: Digest, tx: Transaction, all: Values)
    requires IsTop(Worth(pool), all, maxSize) && |pool| >= maxSize
    requires IsCheapest(pool, h) && OutTotal64(pool[h].outputs) < OutTotal64(tx.outputs) && TxHash(tx) !in pool
    ensures IsTop(Worth((pool - {h})[TxHash(tx) := tx]), all + multiset{OutTotal64(tx.outputs)}, maxSize)
  {
    WorthSize(pool);
    CheapestIsLeast(pool, h);
    WorthWithout(pool, h);
    WorthWith(pool - {h}, TxHash(tx), tx);
    TopSwaps(Worth(pool), all, maxSize, OutTotal64(tx.outputs), OutTotal64(pool[h].outputs));
    assert Worth(pool) - multiset{OutTotal64(pool[h].outputs)} == Worth(pool - {h});
  }

  lemma CheapestIsLeast(pool: Pool, h: Digest)
    requires IsCheapest(pool, h)
    ensures OutTotal64(pool[h].outputs) in Worth(pool)
    ensures forall x :: x in Worth(pool) ==> OutTotal64(pool[h].outputs) <= x
  {
    WorthMember(pool, OutTotal64(pool[h].outputs));
    forall x | x in Worth(pool) ensures OutTotal64(pool[h].outputs) <= x {
      WorthMember(pool, x);
    }
  }

  lemma CheapestSame(pool: Pool, h: Digest, v: nat)
    requires IsCheapest(pool, h) && exists g :: IsCheapest(pool, g) && OutTotal64(pool[g].outputs) < v
    ensures OutTotal64(pool[h].outputs) < v
  {
  }

  lemma {:induction false} CheapestExists(pool: Pool)
    requires pool != map[]
    ensures exists h :: IsCheapest(pool, h)
  {
    var a :| a in pool;
    var rest := pool - {a};
    assert forall g :: g in pool ==> g == a || g in rest;
    if rest == map[] {
      assert IsCheapest(pool, a);
    } else {
      CheapestExists(rest);
      var c :| IsCheapest(rest, c);
      assert IsCheapest(pool, if OutTotal64(pool[c].outputs) < OutTotal64(pool[a].outputs) then c else a);
    }
  }

  lemma NothingCheaper(pool: Pool, v: nat)
    requires !exists h :: IsCheapest(pool, h) && OutTotal64(pool[h].outputs) < v
    ensures forall x :: x in Worth(pool) ==> v <= x
  {
    if pool != map[] {
      CheapestExists(pool);
      var h :| IsCheapest(pool, h);
      CheapestIsLeast(pool, h);
    }
  }

  // ── A stream of offers ─────────────────────────────────────────────────────

  datatype Offer = Offer(tx: Transaction, utxo: Utxo)

  /** `pools` is the pool before each offer and after the last. */
  ghost predicate IsStream(offers: seq<Offer>, pools: seq<Pool>, maxSize: nat) {
    && |pools| == |offers| + 1 && pools[0] == map[]
    && forall i :: 0 <= i < |offers| ==> Adds(pools[i], maxSize, offers[i], pools[i + 1])
  }

  ghost predicate Adds(pool: Pool, maxSize: nat, offer: Offer, after: Pool) {
    exists r :: AddStep(pool, maxSize, offer.tx, offer.utxo, after, r)
  }

  ghost predicate DisjointOffers(offers: seq<Offer>) {
    && (forall i :: 0 <= i < |offers| ==> Validation.ValidTx(offers[i].tx, offers[i].utxo))
    && (forall i, j :: 0 <= i < j < |offers| ==>
          offers[i].tx != offers[j].tx && Ins(offers[i].tx) !! Ins(offers[j].tx))
  }

  function OfferedValues(offers: seq<Offer>): Values {
    if offers == [] then multiset{}
    else OfferedValues(offers[..|offers| - 1]) + multiset{OutTotal64(offers[|offers| - 1].tx.outputs) as nat}
  }

  ghost predicate OnlyOffered(pool: Pool, offers: seq<Offer>) {
    forall h :: h in pool ==> exists i :: 0 <= i < |offers| && offers[i].tx == pool[h] && TxHash(offers[i].tx) == h
  }

  lemma StreamPrefix(offers: seq<Offer>, pools: seq<Pool>, maxSize: nat)
    requires IsStream(offers, pools, maxSize) && offers != []
    ensures IsStream(offers[..|offers| - 1], pools[..|offers|], maxSize)
    ensures Adds(pools[|offers| - 1], maxSize, offers[|offers| - 1], pools[|offers|])
  {
    var init, before := offers[..|offers| - 1], pools[..|offers|];
    forall i | 0 <= i < |init| ensures Adds(before[i], maxSize, init[i], before[i + 1]) {
      assert Adds(pools[i], maxSize, offers[i], pools[i + 1]);
    }
  }

  lemma OffersPrefix(offers: seq<Offer>)
    requires DisjointOffers(offers) && offers != []
    ensures DisjointOffers(offers[..|offers| - 1])
    ensures offers[..|offers| - 1] + [offers[|offers| - 1]] == offers
  {
    var init := offers[..|offers| - 1];
    assert forall i :: 0 <= i < |init| ==> init[i] == offers[i];
  }

  /** What the pool holds after the offers, as a claim about one pool. */
  ghost predicate HoldsTop(pool: Pool, offers: seq<Offer>, maxSize: nat) {
    IsTop(Worth(pool), OfferedValues(offers), maxSize) && |pool| <= maxSize && OnlyOffered(pool, offers)
  }

  /** After any stream of valid offers without common inputs the pool holds the `maxSize` largest values offered. */
  lemma {:induction false} StreamIsTop(offers: seq<Offer>, pools: seq<Pool>, maxSize: nat)
    requires IsStream(offers, pools, maxSize) && DisjointOffers(offers)
    ensures HoldsTop(pools[|offers|], offers, maxSize)
  {
    if offers != [] {
      var n := |offers| - 1;
      StreamPrefix(offers, pools, maxSize);
      OffersPrefix(offers);
      StreamIsTop(offers[..n], pools[..n + 1], maxSize);
      OneMoreOffer(pools[n], maxSize, offers[..n], offers[n], pools[n + 1]);
    }
  }

  lemma OneMoreOffer(pool: Pool, maxSize: nat, earlier: seq<Offer>, offer: Offer, after: Pool)
    requires Adds(pool, maxSize, offer, after) && DisjointOffers(earlier + [offer])
    requires HoldsTop(pool, earlier, maxSize)
    ensures HoldsTop(after, earlier + [offer], maxSize)
  {
    FreshOffer(pool, earlier, offer);
    var r :| AddStep(pool, maxSize, offer.tx, offer.utxo, after, r);
    AddKeepsTop(pool, maxSize, offer.tx, offer.utxo, after, r, OfferedValues(earlier));
    AddSize(pool, maxSize, offer.tx, offer.utxo, after, r);
    AddOrigin(pool, maxSize, offer.tx, offer.utxo, after, r);
    assert (earlier + [offer])[..|earlier|] == earlier;
    NowOffered(pool, earlier, offer, after);
  }

  /** Distinct offers are worth at least what some of them are. */
  lemma {:induction false} SomeOfTheOffers(pool: Pool, offers: seq<Offer>)
    requires OnlyOffered(pool, offers) && DisjointOffers(offers)
    ensures Worth(pool) <= OfferedValues(offers)
  {
    if offers == [] {
      assert pool == map[];
    } else {
      var init, h := offers[..|offers| - 1], TxHash(offers[|offers| - 1].tx);
      OffersPrefix(offers);
      FromEarlier(pool, init, offers[|offers| - 1]);
      SomeOfTheOffers(pool - {h}, init);
      WorthAtMost(pool, h);
    }
  }

  lemma WorthAtMost(pool: Pool, h: Digest)
    ensures h in pool ==> Worth(pool) == Worth(pool - {h}) + multiset{OutTotal64(pool[h].outputs)}
    ensures h !in pool ==> Worth(pool) == Worth(pool - {h})
  {
    if h in pool {
      WorthWithout(pool, h);
    } else {
      assert pool - {h} == pool;
    }
  }

  lemma FromEarlier(pool: Pool, init: seq<Offer>, last: Offer)
    requires OnlyOffered(pool, init + [last])
    ensures OnlyOffered(pool - {TxHash(last.tx)}, init)
    ensures TxHash(last.tx) in pool ==> pool[TxHash(last.tx)] == last.tx
  {
    var offers := init + [last];
    forall h | h in pool && h != TxHash(last.tx)
      ensures exists i :: 0 <= i < |init| && init[i].tx == pool[h] && TxHash(init[i].tx) == h
    {
      var i :| 0 <= i < |offers| && offers[i].tx == pool[h] && TxHash(offers[i].tx) == h;
      assert init[i].tx == pool[h];
    }
  }

  /** So nothing left out of the pool has a larger sum of outputs, as a u64, than anything in it. */
  lemma RichestStay(offers: seq<Offer>, pools: seq<Pool>, maxSize: nat, i: nat, h: Digest)
    requires IsStream(offers, pools, maxSize) && DisjointOffers(offers) && i < |offers|
    requires TxHash(offers[i].tx) !in pools[|offers|] && h in pools[|offers|]
    ensures WrapU64(OutTotal(offers[i].tx.outputs)) <= WrapU64(OutTotal(pools[|offers|][h].outputs))
  {
    var pool, tx := pools[|offers|], offers[i].tx;
    StreamIsTop(offers, pools, maxSize);
    var more := pool[TxHash(tx) := tx];
    assert OnlyOffered(more, offers);
    SomeOfTheOffers(more, offers);
    WorthWith(pool, TxHash(tx), tx);
    assert OutTotal64(tx.outputs) in OfferedValues(offers) - Worth(pool);
    WorthMember(pool, OutTotal64(pool[h].outputs));
  }

  lemma FreshOffer(pool: Pool, earlier: seq<Offer>, offer: Offer)
    requires OnlyOffered(pool, earlier) && DisjointOffers(earlier + [offer])
    ensures Offered(pool, offer.tx, offer.utxo)
  {
    var all := earlier + [offer];
    assert all[|earlier|] == offer;
    forall h | h in pool ensures pool[h] != offer.tx && h != TxHash(offer.tx) && Ins(pool[h]) !! Ins(offer.tx) {
      var i :| 0 <= i < |earlier| && earlier[i].tx == pool[h] && TxHash(earlier[i].tx) == h;
      assert all[i] == earlier[i];
    }
  }

  lemma AddSize(
    pool: Pool, maxSize: nat, tx: Transaction, utxo: Utxo, after: Pool, r: Result<AddedToPool, PoolError>)
    requires AddStep(pool, maxSize, tx, utxo, after, r) && |pool| <= maxSize
    ensures |after| <= maxSize
  {
    SizeWith(pool, TxHash(tx), tx);
    if exists h :: IsCheapest(pool, h) && after == (pool - {h})[TxHash(tx) := tx] {
      var h :| IsCheapest(pool, h) && after == (pool - {h})[TxHash(tx) := tx];
      SizeWith(pool, h, tx);
      SizeWith(pool - {h}, TxHash(tx), tx);
    }
  }

  lemma AddOrigin(
    pool: Pool, maxSize: nat, tx: Transaction, utxo: Utxo, after: Pool, r: Result<AddedToPool, PoolError>)
    requires AddStep(pool, maxSize, tx, utxo, after, r)
    ensures forall h :: h in after ==> (h in pool && after[h] == pool[h]) || (h == TxHash(tx) && after[h] == tx)
  {
  }

  lemma NowOffered(pool: Pool, earlier: seq<Offer>, offer: Offer, after: Pool)
    requires OnlyOffered(pool, earlier)
    requires forall h :: h in after ==>
      (h in pool && after[h] == pool[h]) || (h == TxHash(offer.tx) && after[h] == offer.tx)
    ensures OnlyOffered(after, earlier + [offer])
  {
    var all := earlier + [offer];
    forall h | h in after ensures exists i :: 0 <= i < |all| && all[i].tx == after[h] && TxHash(all[i].tx) == h {
      if h in pool && pool[h] == after[h] {
        var i :| 0 <= i < |earlier| && earlier[i].tx == pool[h] && TxHash(earlier[i].tx) == h;
        assert all[i].tx == after[h];
      } else {
        assert all[|earlier|].tx == after[h];
      }
    }
  }
}
