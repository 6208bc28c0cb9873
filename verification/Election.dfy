/**
 Stake-weighted election of a slot's proposer. Each validator owns a segment of
 the line [0, total stake) as long as its stake; a digest picks a point on it.
 */
module Election {
  import opened Types

  function StakeSum(validators: seq<Validator>): nat {
    if validators == [] then 0
    else StakeSum(validators[..|validators| - 1]) + validators[|validators| - 1].stake
  }

  /** The scan's running total once it has added the first `n` stakes, in unchecked u64 arithmetic. */
  function Acc(validators: seq<Validator>, n: nat): U64
    requires n <= |validators|
  {
    WrapU64(StakeSum(validators[..n]))
  }

  /** The first validator whose running total passes the pick. */
  function Winner(validators: seq<Validator>, pick: nat, from: nat): (r: Option<nat>)
    requires from <= |validators|
    ensures r.Some? ==>
      && from <= r.value < |validators|
      && pick < Acc(validators, r.value + 1)
      && forall n :: from < n <= r.value ==> Acc(validators, n) <= pick
    ensures r.None? ==> forall n :: from < n <= |validators| ==> Acc(validators, n) <= pick
    decreases |validators| - from
  {
    if from == |validators| then None
    else if pick < Acc(validators, from + 1) then Some(from)
    else Winner(validators, pick, from + 1)
  }

  function Draw(p: Params, slot: U64, prevHash: Digest, total: U64): (pick: U64)
    requires total > 0
    ensures pick < total
  {
    p.digestPrefix(OfSeed(prevHash, slot)) % total
  }

  function Elect(p: Params, slot: U64, prevHash: Digest, validators: seq<Validator>): Option<Validator> {
    var total := WrapU64(StakeSum(validators));
    if total == 0 then None
    else
      match Winner(validators, Draw(p, slot, prevHash, total), 0)
      case Some(i) => Some(validators[i])
      case None => None
  }

  method SumStakes(validators: seq<Validator>) returns (total: U64)
    ensures total == WrapU64(StakeSum(validators))
  {
    total := 0;
    for k := 0 to |validators|
      invariant total == Acc(validators, k)
    {
      AccStep(validators, k);
      total := WrapU64(total + validators[k].stake);
    }
    assert validators[..|validators|] == validators;
  }

  method ElectProposer(p: Params, slot: U64, prevHash: Digest, validators: seq<Validator>)
    returns (proposer: Option<Validator>)
    ensures proposer == Elect(p, slot, prevHash, validators)
  {
    if validators == [] {
      return None;
    }
    var total := SumStakes(validators);
    if total == 0 {
      return None;
    }
    var pick := Draw(p, slot, prevHash, total);
    var acc: U64 := 0;
    for k := 0 to |validators|
      invariant acc == Acc(validators, k)
      invariant Winner(validators, pick, 0) == Winner(validators, pick, k)
    {
      AccStep(validators, k);
      acc := WrapU64(acc + validators[k].stake);
      if pick < acc {
        return Some(validators[k]);
      }
    }
    return None;
  }

  lemma AccStep(validators: seq<Validator>, k: nat)
    requires k < |validators|
    ensures Acc(validators, k + 1) == WrapU64(Acc(validators, k) + validators[k].stake)
  {
    assert validators[..k + 1][..k] == validators[..k];
    WrapWrapped(StakeSum(validators[..k]), validators[k].stake);
  }

  /** The scan never falls through, overflow or not: somebody is elected exactly when the total is not zero. */
  lemma ElectionIsTotal(p: Params, slot: U64, prevHash: Digest, validators: seq<Validator>)
    ensures Elect(p, slot, prevHash, validators).Some? <==> WrapU64(StakeSum(validators)) != 0
    ensures Elect(p, slot, prevHash, validators).Some? ==> Elect(p, slot, prevHash, validators).value in validators
  {
    var total := WrapU64(StakeSum(validators));
    if total != 0 {
      assert validators[..|validators|] == validators;
      assert Acc(validators, |validators|) > Draw(p, slot, prevHash, total);
    }
  }

  // ── Fairness ───────────────────────────────────────────────────────────────

  lemma {:induction false} PrefixSumMonotone(validators: seq<Validator>, a: nat, b: nat)
    requires a <= b <= |validators|
    ensures StakeSum(validators[..a]) <= StakeSum(validators[..b])
  {
    if a < b {
      assert validators[..b][..b - 1] == validators[..b - 1];
      PrefixSumMonotone(validators, a, b - 1);
    }
  }

  /** Without overflow a validator wins exactly the picks inside its segment. */
  lemma WinsItsSegment(validators: seq<Validator>, i: nat, pick: nat)
    requires i < |validators| && StakeSum(validators) <= U64_MAX
    ensures Winner(validators, pick, 0) == Some(i) <==>
            StakeSum(validators[..i]) <= pick < StakeSum(validators[..i + 1])
    ensures StakeSum(validators[..i + 1]) == StakeSum(validators[..i]) + validators[i].stake
    ensures StakeSum(validators[..i + 1]) <= StakeSum(validators)
  {
    assert validators[..|validators|] == validators;
    forall n | 0 <= n <= |validators| ensures Acc(validators, n) == StakeSum(validators[..n]) {
      PrefixSumMonotone(validators, n, |validators|);
    }
    assert validators[..i + 1][..i] == validators[..i];
    PrefixSumMonotone(validators, i + 1, |validators|);
    var w := Winner(validators, pick, 0);
    if StakeSum(validators[..i]) <= pick < StakeSum(validators[..i + 1]) {
      assert Acc(validators, i + 1) > pick;
      if w.value < i {
        PrefixSumMonotone(validators, w.value + 1, i);
      }
    }
    if w == Some(i) && i > 0 {
      assert Acc(validators, i) <= pick;
    }
  }

  /**
   The seed is the parent's hash and the slot: whoever's segment its first eight
   bytes fall into, reduced modulo the total stake, is elected, and with different
   entries nobody else.
   */
  lemma SeedElects(p: Params, slot: U64, prevHash: Digest, validators: seq<Validator>, i: nat)
    requires i < |validators| && 0 < StakeSum(validators) <= U64_MAX
    ensures var point := p.digestPrefix(OfSeed(prevHash, slot)) % StakeSum(validators);
            var lo := StakeSum(validators[..i]);
            && (lo <= point < lo + validators[i].stake ==>
                  Elect(p, slot, prevHash, validators) == Some(validators[i]))
            && (Elect(p, slot, prevHash, validators) == Some(validators[i])
                && (forall j :: 0 <= j < |validators| && j != i ==> validators[j] != validators[i]) ==>
                  lo <= point < lo + validators[i].stake)
  {
    var point := p.digestPrefix(OfSeed(prevHash, slot)) % StakeSum(validators);
    var w := DrawnIs(p, slot, prevHash, validators, point);
    WinsItsSegment(validators, i, point);
  }

  /** Without overflow the election is the scan for the seed's point. */
  lemma DrawnIs(p: Params, slot: U64, prevHash: Digest, validators: seq<Validator>, point: nat) returns (w: nat)
    requires 0 < StakeSum(validators) <= U64_MAX
    requires point == p.digestPrefix(OfSeed(prevHash, slot)) % StakeSum(validators)
    ensures w < |validators| && Winner(validators, point, 0) == Some(w)
    ensures Elect(p, slot, prevHash, validators) == Some(validators[w])
  {
    assert WrapU64(StakeSum(validators)) == StakeSum(validators);
    assert Draw(p, slot, prevHash, StakeSum(validators)) == point;
    ElectionIsTotal(p, slot, prevHash, validators);
    w := Winner(validators, point, 0).value;
  }

  function Interval(lo: nat, hi: nat): set<nat> {
    set n: nat {:trigger Within(n, lo, hi)} | n < hi && Within(n, lo, hi)
  }

  predicate Within(n: nat, lo: nat, hi: nat) {
    lo <= n < hi
  }

  lemma {:induction false} IntervalSize(lo: nat, hi: nat)
    requires lo <= hi
    ensures |Interval(lo, hi)| == hi - lo
  {
    if lo < hi {
      IntervalSize(lo, hi - 1);
      var k := hi - 1;
      forall n ensures n in Interval(lo, hi) <==> n in Interval(lo, k) + {k} {
        assert Within(n, lo, hi) <==> Within(n, lo, k) || n == k;
      }
      assert Interval(lo, hi) == Interval(lo, k) + {k};
    } else {
      assert Interval(lo, hi) == {};
    }
  }

  /** Every validator wins exactly `stake` of the picks below the total. */
  lemma WinsItsStake(validators: seq<Validator>, i: nat)
    requires i < |validators| && StakeSum(validators) <= U64_MAX
    ensures |set pick: nat | pick < StakeSum(validators) && Winner(validators, pick, 0) == Some(i)|
            == validators[i].stake
  {
    var lo, hi := StakeSum(validators[..i]), StakeSum(validators[..i + 1]);
    forall pick: nat ensures Winner(validators, pick, 0) == Some(i) <==> lo <= pick < hi {
      WinsItsSegment(validators, i, pick);
    }
    WinsItsSegment(validators, i, 0);
    IntervalSize(lo, hi);
    assert (set pick: nat | pick < StakeSum(validators) && Winner(validators, pick, 0) == Some(i))
        == Interval(lo, hi);
  }

  /** How many of the residues 0, 1, …, r - 1 lie in [lo, hi). */
  function Below(r: nat, lo: nat, hi: nat): nat
    requires lo <= hi
  {
    if r <= lo then 0 else if r < hi then r - lo else hi - lo
  }

  predicate Hits(s: nat, t: nat, lo: nat, hi: nat)
    requires t > 0
  {
    lo <= s % t < hi
  }

  function HitSet(n: nat, t: nat, lo: nat, hi: nat): set<nat>
    requires t > 0
  {
    set s: nat | s < n && Hits(s, t, lo, hi)
  }

  /** Counting the numbers below `n` whose residue modulo `t` lies in [lo, hi). */
  lemma {:induction false} ResidueCount(n: nat, t: nat, lo: nat, hi: nat)
    requires t > 0 && lo <= hi <= t
    ensures |HitSet(n, t, lo, hi)| == n / t * (hi - lo) + Below(n % t, lo, hi)
  {
    if n == 0 {
      QuotientUnique(0, t, 0, 0);
      assert HitSet(0, t, lo, hi) == {};
    } else {
      ResidueCount(n - 1, t, lo, hi);
      HitSetStep(n - 1, t, lo, hi);
      CountStep(n - 1, t, lo, hi);
    }
  }

  lemma HitSetStep(n: nat, t: nat, lo: nat, hi: nat)
    requires t > 0
    ensures |HitSet(n + 1, t, lo, hi)| == |HitSet(n, t, lo, hi)| + (if Hits(n, t, lo, hi) then 1 else 0)
  {
    if Hits(n, t, lo, hi) {
      assert HitSet(n + 1, t, lo, hi) == HitSet(n, t, lo, hi) + {n};
    } else {
      assert HitSet(n + 1, t, lo, hi) == HitSet(n, t, lo, hi);
    }
  }

  lemma CountStep(n: nat, t: nat, lo: nat, hi: nat)
    requires t > 0 && lo <= hi <= t
    ensures (n + 1) / t * (hi - lo) + Below((n + 1) % t, lo, hi)
         == n / t * (hi - lo) + Below(n % t, lo, hi) + (if Hits(n, t, lo, hi) then 1 else 0)
  {
    var q, r, w := n / t, n % t, hi - lo;
    if r == t - 1 {
      QuotientUnique(n + 1, t, q + 1, 0);
      Distribute(q, w);
    } else {
      QuotientUnique(n + 1, t, q, r + 1);
    }
  }

  lemma ResidueShare(n: nat, t: nat, lo: nat, hi: nat, width: nat)
    requires t > 0 && lo <= hi <= t && width == hi - lo
    ensures n / t * width <= |HitSet(n, t, lo, hi)| <= (n / t + 1) * width
  {
    ResidueCount(n, t, lo, hi);
    Distribute(n / t, width);
  }

  lemma Distribute(q: nat, w: nat)
    ensures (q + 1) * w == q * w + w
  {
  }

  lemma QuotientUnique(n: nat, t: nat, q: nat, r: nat)
    requires t > 0 && r < t && n == q * t + r
    ensures n / t == q && n % t == r
  {
    DivisionUnique(t, q, r, n / t, n % t);
  }

  lemma DivisionUnique(t: nat, q: nat, r: nat, q': nat, r': nat)
    requires r < t && r' < t && q * t + r == q' * t + r'
    ensures q == q' && r == r'
  {
    if q < q' {
      MultipleAtLeast(q' - q, t);
    } else if q' < q {
      MultipleAtLeast(q - q', t);
    }
  }

  lemma MultipleAtLeast(k: nat, t: nat)
    requires k > 0
    ensures k * t >= t
  {
  }

  /**
   The 64-bit draws that elect a validator: a share of 2^64 proportional to its
   stake, off by less than one round of the modulus.
   */
  lemma DrawsElecting(validators: seq<Validator>, i: nat)
    requires i < |validators| && 0 < StakeSum(validators) <= U64_MAX
    ensures var total := StakeSum(validators);
            var q := (U64_MAX + 1) / total;
            q * validators[i].stake <= |Draws(validators, i)| <= (q + 1) * validators[i].stake
  {
    var lo, stake := StakeSum(validators[..i]), validators[i].stake;
    DrawsAreHits(validators, i, lo, lo + stake);
    ResidueShare(U64_MAX + 1, StakeSum(validators), lo, lo + stake, stake);
  }

  lemma DrawsAreHits(validators: seq<Validator>, i: nat, lo: nat, hi: nat)
    requires i < |validators| && 0 < StakeSum(validators) <= U64_MAX
    requires lo == StakeSum(validators[..i]) && hi == lo + validators[i].stake
    ensures hi <= StakeSum(validators)
    ensures Draws(validators, i) == HitSet(U64_MAX + 1, StakeSum(validators), lo, hi)
  {
    WinsItsSegment(validators, i, 0);
    forall d: nat ensures Elects(validators, i, d) <==> Hits(d, StakeSum(validators), lo, hi) {
      WinsItsSegment(validators, i, d % StakeSum(validators));
    }
  }

  /** The draw `d`, reduced modulo the total stake, picks validator `i`. */
  predicate Elects(validators: seq<Validator>, i: nat, d: nat)
    requires 0 < StakeSum(validators)
  {
    Winner(validators, d % StakeSum(validators), 0) == Some(i)
  }

  function Draws(validators: seq<Validator>, i: nat): set<nat>
    requires 0 < StakeSum(validators)
  {
    set d: nat | d < U64_MAX + 1 && Elects(validators, i, d)
  }
}
