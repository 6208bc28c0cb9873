/**
 Splitting one output into many by binary doubling. Whether the network takes and
 confirms the transactions of a round is a parameter.
 */
module Split {
  import opened Types
  import opened Ledger
  import Validation
  import opened Wallet

  /** Every coin worth splitting has a hash that decodes. */
  predicate Splittable(coins: seq<UtxoItem>) {
    forall i :: 0 <= i < |coins| && coins[i].amount >= 2 ==> coins[i].txHash.Hash?
  }

  // ── One round ──────────────────────────────────────────────────────────────

  /** The transfer that halves a coin, both halves to `owner`. */
  function SplitTx(key: SecretKey, owner: Address, coin: UtxoItem): Transaction
    requires coin.txHash.Hash? && coin.amount >= 2
  {
    var half := coin.amount / 2;
    var outputs := [TxOutput(half, owner), TxOutput(coin.amount - half, owner)];
    var signature := Sign(key, TxSigning(Transfer, [RefOf(coin)], outputs));
    Transaction(Transfer, [TxInput(RefOf(coin), signature, VerifyingKey(key))], outputs)
  }

  function Halves(key: SecretKey, owner: Address, coin: UtxoItem): seq<UtxoItem>
    requires coin.txHash.Hash? && coin.amount >= 2
  {
    var hash := Hash(TxHash(SplitTx(key, owner, coin)));
    var half := coin.amount / 2;
    [UtxoItem(hash, 0, half), UtxoItem(hash, 1, coin.amount - half)]
  }

  function TooSmall(coins: seq<UtxoItem>): seq<UtxoItem> {
    if coins == [] then []
    else
      var last := coins[|coins| - 1];
      TooSmall(coins[..|coins| - 1]) + (if last.amount < 2 then [last] else [])
  }

  function Halved(key: SecretKey, owner: Address, coins: seq<UtxoItem>): seq<UtxoItem>
    requires Splittable(coins)
  {
    if coins == [] then []
    else
      var last := coins[|coins| - 1];
      Halved(key, owner, coins[..|coins| - 1]) + (if last.amount < 2 then [] else Halves(key, owner, last))
  }

  /** Just enough coins to reach the target, or all of them. */
  function ToSplit(have: nat, target: nat): nat
    requires have <= target
  {
    Min(target - have, have)
  }

  /** The coins after a round: those kept, those too small, then the halves. */
  function NextRound(key: SecretKey, owner: Address, coins: seq<UtxoItem>, n: nat): (next: seq<UtxoItem>)
    requires Splittable(coins) && n <= |coins|
  {
    coins[n..] + TooSmall(coins[..n]) + Halved(key, owner, coins[..n])
  }

  /** The whole run: rounds until the target is reached or a round has nothing to split. */
  function SplitAll(key: SecretKey, owner: Address, coins: seq<UtxoItem>, target: nat): (r: seq<UtxoItem>)
    requires Splittable(coins) && |coins| <= target
    ensures Splittable(r) && |r| <= target
    decreases target - |coins|
  {
    if |coins| == target then coins
    else
      var n := ToSplit(|coins|, target);
      RoundShape(key, owner, coins, n);
      if Halved(key, owner, coins[..n]) == [] then coins
      else SplitAll(key, owner, NextRound(key, owner, coins, n), target)
  }

  lemma {:induction false} HalvedShape(key: SecretKey, owner: Address, coins: seq<UtxoItem>)
    requires Splittable(coins)
    ensures Splittable(TooSmall(coins)) && Splittable(Halved(key, owner, coins))
    ensures 2 * |TooSmall(coins)| + |Halved(key, owner, coins)| == 2 * |coins|
    ensures Sum(TooSmall(coins)) + Sum(Halved(key, owner, coins)) == Sum(coins)
  {
    if coins != [] {
      var init, last := coins[..|coins| - 1], coins[|coins| - 1];
      HalvedShape(key, owner, init);
      if last.amount < 2 {
        SumAppend(TooSmall(init), [last]);
        SumOne(last);
        assert Halved(key, owner, coins) == Halved(key, owner, init);
      } else {
        assert TooSmall(coins) == TooSmall(init);
        SumAppend(Halved(key, owner, init), Halves(key, owner, last));
        SumHalves(key, owner, last);
      }
    }
  }

  lemma SumOne(coin: UtxoItem)
    ensures Sum([coin]) == coin.amount
  {
    assert [coin][..0] == [];
  }

  lemma SumHalves(key: SecretKey, owner: Address, coin: UtxoItem)
    requires coin.txHash.Hash? && coin.amount >= 2
    ensures Sum(Halves(key, owner, coin)) == coin.amount
  {
    var h := Halves(key, owner, coin);
    assert h[..1] == [h[0]];
    SumOne(h[0]);
  }

  lemma {:induction false} SumAppend(a: seq<UtxoItem>, b: seq<UtxoItem>)
    ensures Sum(a + b) == Sum(a) + Sum(b)
  {
    if b == [] {
      assert a + b == a;
    } else {
      SumAppend(a, b[..|b| - 1]);
      assert (a + b)[..|a + b| - 1] == a + b[..|b| - 1];
    }
  }

  lemma SplittableAppend(a: seq<UtxoItem>, b: seq<UtxoItem>)
    ensures Splittable(a + b) <==> Splittable(a) && Splittable(b)
  {
    var all := a + b;
    if Splittable(all) {
      assert forall i :: 0 <= i < |a| ==> all[i] == a[i];
      assert forall i :: 0 <= i < |b| ==> all[|a| + i] == b[i];
    }
  }

  lemma SumOfThree(a: seq<UtxoItem>, b: seq<UtxoItem>, c: seq<UtxoItem>)
    ensures Sum(a + b + c) == Sum(a) + Sum(b) + Sum(c)
  {
    SumAppend(a, b);
    SumAppend(a + b, c);
  }

  lemma SumCut(coins: seq<UtxoItem>, n: nat)
    requires n <= |coins|
    ensures Sum(coins) == Sum(coins[..n]) + Sum(coins[n..])
  {
    SumAppend(coins[..n], coins[n..]);
    assert coins[..n] + coins[n..] == coins;
  }

  lemma RoundSum(key: SecretKey, owner: Address, coins: seq<UtxoItem>, n: nat)
    requires Splittable(coins) && n <= |coins|
    ensures Sum(NextRound(key, owner, coins, n)) == Sum(coins)
  {
    SumCut(coins, n);
    HalvedShape(key, owner, coins[..n]);
    SumOfThree(coins[n..], TooSmall(coins[..n]), Halved(key, owner, coins[..n]));
  }

  /** A round adds one coin for each one split and changes no total. */
  lemma RoundShape(key: SecretKey, owner: Address, coins: seq<UtxoItem>, n: nat)
    requires Splittable(coins) && n <= |coins|
    ensures var next := NextRound(key, owner, coins, n);
            && Splittable(next) && Sum(next) == Sum(coins)
            && 2 * |next| == 2 * |coins| + |Halved(key, owner, coins[..n])|
            && |next| <= |coins| + n
  {
    var init, kept := coins[..n], coins[n..];
    HalvedShape(key, owner, init);
    RoundSum(key, owner, coins, n);
    SplittableAppend(kept, TooSmall(init));
    SplittableAppend(kept + TooSmall(init), Halved(key, owner, init));
  }

  /** No value is lost or made, and the target is never exceeded. */
  lemma {:induction false} SplitKeepsSum(key: SecretKey, owner: Address, coins: seq<UtxoItem>, target: nat)
    requires Splittable(coins) && |coins| <= target
    ensures Sum(SplitAll(key, owner, coins, target)) == Sum(coins)
    decreases target - |coins|
  {
    if |coins| < target {
      var n := ToSplit(|coins|, target);
      RoundShape(key, owner, coins, n);
      if Halved(key, owner, coins[..n]) != [] {
        SplitKeepsSum(key, owner, NextRound(key, owner, coins, n), target);
      }
    }
  }

  // ── The code ───────────────────────────────────────────────────────────────

  method BuildSplits(key: SecretKey, owner: Address, splitting: seq<UtxoItem>, keeping: seq<UtxoItem>)
    returns (r: Result<(seq<UtxoItem>, seq<UtxoItem>), ClientError>)
    ensures r.Ok? <==> Splittable(splitting)
    ensures r.Ok? ==> r.value == (keeping + TooSmall(splitting), Halved(key, owner, splitting))
  {
    var next, built: seq<UtxoItem> := keeping, [];
    for i := 0 to |splitting|
      invariant Splittable(splitting[..i])
      invariant next == keeping + TooSmall(splitting[..i]) && built == Halved(key, owner, splitting[..i])
    {
      assert splitting[..i + 1][..i] == splitting[..i];
      var coin := splitting[i];
      if coin.amount < 2 {
        next := next + [coin];
      } else {
        var half := coin.amount / 2;
        var tx := BuildTransfer(key, [coin], owner, half, owner);
        if tx.Err? {
          return Err(tx.error);
        }
        TransferIsSplit(key, owner, coin, tx.value);
        var hash := Hash(TxHash(tx.value));
        built := built + [UtxoItem(hash, 0, half), UtxoItem(hash, 1, coin.amount - half)];
      }
    }
    assert splitting[..|splitting|] == splitting;
    return Ok((next, built));
  }

  lemma TransferIsSplit(key: SecretKey, owner: Address, coin: UtxoItem, tx: Transaction)
    requires coin.amount >= 2 && IsTransfer(tx, key, [coin], owner, coin.amount / 2, owner)
    ensures coin.txHash.Hash? && tx == SplitTx(key, owner, coin)
  {
    SumOne(coin);
    assert [coin][0].txHash.Hash?;
    assert WrapU64(Sum([coin])) == coin.amount;
    assert InputRefs(tx) == [RefOf(coin)];
    var half := coin.amount / 2;
    assert [TxOutput(half, owner)] + [TxOutput(coin.amount - half, owner)]
        == [TxOutput(half, owner), TxOutput(coin.amount - half, owner)];
    assert tx.outputs == SplitTx(key, owner, coin).outputs;
    assert TxSigningBytes(tx) == TxSigning(Transfer, [RefOf(coin)], tx.outputs);
    assert tx.inputs == [tx.inputs[0]];
    assert tx.inputs[0] == SplitTx(key, owner, coin).inputs[0];
  }

  // ── The network in between ─────────────────────────────────────────────────

  /** Whether a round's transactions were all taken, and all confirmed in time. */
  datatype RoundReply = Confirmed | Refused | Unconfirmed

  datatype SplitError = NotBuilt(error: ClientError) | NotSubmitted | NotConfirmed

  /** The whole run from round `i` on, as the network has it. */
  function SplitOver(
    key: SecretKey, owner: Address, coins: seq<UtxoItem>, target: nat, network: nat -> RoundReply, i: nat)
    : (r: Result<seq<UtxoItem>, SplitError>)
    requires Splittable(coins) && |coins| <= target
    decreases target - |coins|
  {
    if |coins| == target then Ok(coins)
    else
      var n := ToSplit(|coins|, target);
      RoundShape(key, owner, coins, n);
      if Halved(key, owner, coins[..n]) == [] then Ok(coins)
      else if network(i).Refused? then Err(NotSubmitted)
      else if network(i).Unconfirmed? then Err(NotConfirmed)
      else SplitOver(key, owner, NextRound(key, owner, coins, n), target, network, i + 1)
  }

  /** How many rounds the run takes. */
  ghost function Rounds(key: SecretKey, owner: Address, coins: seq<UtxoItem>, target: nat): nat
    requires Splittable(coins) && |coins| <= target
    decreases target - |coins|
  {
    if |coins| == target then 0
    else
      var n := ToSplit(|coins|, target);
      RoundShape(key, owner, coins, n);
      if Halved(key, owner, coins[..n]) == [] then 0
      else 1 + Rounds(key, owner, NextRound(key, owner, coins, n), target)
  }

  /** The run gives the coins of the undisturbed one if every round is confirmed, and none otherwise. */
  lemma {:induction false} SplitOverIs(
    key: SecretKey, owner: Address, coins: seq<UtxoItem>, target: nat, network: nat -> RoundReply, i: nat)
    requires Splittable(coins) && |coins| <= target
    ensures var r := SplitOver(key, owner, coins, target, network, i);
            && (r.Ok? <==> forall j: nat :: i <= j < i + Rounds(key, owner, coins, target) ==> network(j).Confirmed?)
            && (r.Ok? ==> r.value == SplitAll(key, owner, coins, target))
    decreases target - |coins|
  {
    var n := ToSplit(|coins|, target);
    RoundShape(key, owner, coins, n);
    if |coins| < target && Halved(key, owner, coins[..n]) != [] {
      var next := NextRound(key, owner, coins, n);
      SplitOverIs(key, owner, next, target, network, i + 1);
      assert Rounds(key, owner, coins, target) == 1 + Rounds(key, owner, next, target);
      if !network(i).Confirmed? {
        assert i <= i < i + Rounds(key, owner, coins, target);
      }
    }
  }

  method SplitUtxo(key: SecretKey, owner: Address, input: UtxoItem, target: nat, network: nat -> RoundReply)
    returns (r: Result<seq<UtxoItem>, SplitError>)
    ensures target <= 1 ==> r == Ok([input])
    ensures target > 1 && !Splittable([input]) ==> r.Err? && r.error.NotBuilt?
    ensures target > 1 && Splittable([input]) ==> r == SplitOver(key, owner, [input], target, network, 0)
  {
    if target <= 1 {
      return Ok([input]);
    }
    var current, i := [input], 0;
    while |current| < target
      invariant 0 < |current| <= target
      invariant current == [input] || Splittable([input])
      invariant Splittable([input]) ==>
        && Splittable(current)
        && SplitOver(key, owner, current, target, network, i) == SplitOver(key, owner, [input], target, network, 0)
      decreases target - |current|
    {
      var n := ToSplit(|current|, target);
      var built := BuildSplits(key, owner, current[..n], current[n..]);
      assert current == [input] ==> current[..n] == current;
      if built.Err? {
        return Err(NotBuilt(built.error));
      }
      RoundShape(key, owner, current, n);
      if built.value.1 == [] {
        break;
      }
      if network(i).Refused? {
        return Err(NotSubmitted);
      }
      if network(i).Unconfirmed? {
        return Err(NotConfirmed);
      }
      current, i := built.value.0 + built.value.1, i + 1;
    }
    assert current[..Min(target, |current|)] == current;
    return Ok(current[..Min(target, |current|)]);
  }

  // ── When the target is met ─────────────────────────────────────────────────

  lemma {:induction false} Pow2Grows(j: nat, k: nat)
    requires j <= k
    ensures Pow2(j) <= Pow2(k)
  {
    if j < k {
      Pow2Grows(j, k - 1);
    }
  }

  /** `c` is the binary logarithm of `n`, rounded up. */
  predicate IsRounds(c: nat, n: nat) {
    Pow2(c) >= n && (c == 0 || Pow2(c - 1) < n)
  }

  /** What an amount can be after `r` halvings of `whole`, rounding either way: ⌊whole/2^r⌋ to ⌈whole/2^r⌉. */
  predicate Near(amount: nat, whole: nat, r: nat) {
    (amount + 1) * Pow2(r) > whole && amount * Pow2(r) < whole + Pow2(r)
  }

  lemma HalvesNear(amount: nat, whole: nat, r: nat)
    requires Near(amount, whole, r)
    ensures Near(amount / 2, whole, r + 1) && Near(amount - amount / 2, whole, r + 1)
  {
    HalfNear(amount, amount / 2, whole, Pow2(r));
    HalfNear(amount, amount - amount / 2, whole, Pow2(r));
  }

  /** Either half of an amount: twice it is within one of the amount. */
  lemma HalfNear(amount: nat, half: nat, whole: nat, p: nat)
    requires amount <= 2 * half + 1 && 2 * half <= amount + 1
    requires (amount + 1) * p > whole && amount * p < whole + p
    ensures (half + 1) * (2 * p) > whole && half * (2 * p) < whole + 2 * p
  {
    Ordered(amount + 1, 2 * half + 2, p);
    Ordered(2 * half, amount + 1, p);
    assert (half + 1) * (2 * p) == (2 * half + 2) * p;
    assert half * (2 * p) == 2 * half * p;
    assert (amount + 1) * p == amount * p + p;
  }

  lemma Ordered(a: nat, b: nat, p: nat)
    requires a <= b
    ensures a * p <= b * p
  {
  }

  /** An amount of at least 2^c can be halved c times. */
  lemma NearIsBig(amount: nat, whole: nat, r: nat, c: nat)
    requires Near(amount, whole, r) && whole >= Pow2(c) && r < c
    ensures amount >= 2
  {
    Pow2Grows(r + 1, c);
    if amount <= 1 {
      Ordered(amount + 1, 2, Pow2(r));
    }
  }

  ghost predicate AllNear(coins: seq<UtxoItem>, whole: nat, r: nat) {
    forall i :: 0 <= i < |coins| ==> Near(coins[i].amount, whole, r)
  }

  lemma NearAppend(a: seq<UtxoItem>, b: seq<UtxoItem>, whole: nat, r: nat)
    requires AllNear(a, whole, r) && AllNear(b, whole, r)
    ensures AllNear(a + b, whole, r)
  {
  }

  lemma {:induction false} HalvedNear(key: SecretKey, owner: Address, coins: seq<UtxoItem>, whole: nat, r: nat, c: nat)
    requires Splittable(coins) && AllNear(coins, whole, r) && whole >= Pow2(c) && r < c
    ensures TooSmall(coins) == [] && |Halved(key, owner, coins)| == 2 * |coins|
    ensures AllNear(Halved(key, owner, coins), whole, r + 1)
  {
    if coins != [] {
      var init, last := coins[..|coins| - 1], coins[|coins| - 1];
      HalvedNear(key, owner, init, whole, r, c);
      NearIsBig(last.amount, whole, r, c);
      HalvesNear(last.amount, whole, r);
      NearAppend(Halved(key, owner, init), Halves(key, owner, last), whole, r + 1);
    }
  }

  /** Every coin was halved `c` times, or once less. */
  ghost predicate AlmostEven(coins: seq<UtxoItem>, whole: nat, c: nat)
    requires c > 0
  {
    forall i :: 0 <= i < |coins| ==> Near(coins[i].amount, whole, c) || Near(coins[i].amount, whole, c - 1)
  }

  /** A round over all coins: all are halved. */
  lemma FullRound(key: SecretKey, owner: Address, coins: seq<UtxoItem>, whole: nat, r: nat, c: nat)
    requires Splittable(coins) && AllNear(coins, whole, r) && whole >= Pow2(c) && r < c
    ensures |NextRound(key, owner, coins, |coins|)| == |Halved(key, owner, coins[..|coins|])| == 2 * |coins|
    ensures AllNear(NextRound(key, owner, coins, |coins|), whole, r + 1)
  {
    HalvedNear(key, owner, coins, whole, r, c);
    assert coins[..|coins|] == coins && coins[|coins|..] == [];
    assert NextRound(key, owner, coins, |coins|) == Halved(key, owner, coins);
  }

  /** The last round, over some of the coins. */
  lemma PartRound(key: SecretKey, owner: Address, coins: seq<UtxoItem>, n: nat, whole: nat, c: nat)
    requires Splittable(coins) && n <= |coins| && c > 0 && AllNear(coins, whole, c - 1) && whole >= Pow2(c)
    ensures |NextRound(key, owner, coins, n)| == |coins| + n && |Halved(key, owner, coins[..n])| == 2 * n
    ensures AlmostEven(NextRound(key, owner, coins, n), whole, c)
  {
    HalvedNear(key, owner, coins[..n], whole, c - 1, c);
    var halves := Halved(key, owner, coins[..n]);
    var next := NextRound(key, owner, coins, n);
    assert next == coins[n..] + halves;
    forall i | 0 <= i < |next| ensures Near(next[i].amount, whole, c) || Near(next[i].amount, whole, c - 1) {
      if i < |coins| - n {
        assert next[i] == coins[n + i];
      } else {
        assert next[i] == halves[i - (|coins| - n)];
      }
    }
  }

  lemma Pow2Below(j: nat, k: nat)
    requires Pow2(j) < Pow2(k)
    ensures j < k
  {
    if j >= k {
      Pow2Grows(k, j);
    }
  }

  /** A round that split something is followed by the rest of the run. */
  lemma RoundTaken(key: SecretKey, owner: Address, coins: seq<UtxoItem>, target: nat, n: nat)
    requires Splittable(coins) && |coins| < target && n == ToSplit(|coins|, target)
    requires Halved(key, owner, coins[..n]) != []
    ensures var next := NextRound(key, owner, coins, n);
            && Splittable(next) && |next| <= target
            && SplitAll(key, owner, coins, target) == SplitAll(key, owner, next, target)
            && Rounds(key, owner, coins, target) == 1 + Rounds(key, owner, next, target)
  {
    RoundShape(key, owner, coins, n);
  }

  lemma {:induction false} ReachesFrom(
    key: SecretKey, owner: Address, coins: seq<UtxoItem>, target: nat, whole: nat, r: nat, c: nat)
    requires Splittable(coins) && |coins| == Pow2(r) <= target && AllNear(coins, whole, r)
    requires IsRounds(c, target) && c > 0 && r <= c && whole >= Pow2(c)
    ensures |SplitAll(key, owner, coins, target)| == target
    ensures AlmostEven(SplitAll(key, owner, coins, target), whole, c)
    ensures Rounds(key, owner, coins, target) == c - r
    decreases c - r
  {
    if |coins| == target {
      Pow2Below(c - 1, r);
    } else {
      Pow2Below(r, c);
      var n := ToSplit(|coins|, target);
      assert Pow2(r + 1) == 2 * Pow2(r);
      if n == |coins| {
        FullRound(key, owner, coins, whole, r, c);
        RoundTaken(key, owner, coins, target, n);
        ReachesFrom(key, owner, NextRound(key, owner, coins, n), target, whole, r + 1, c);
      } else {
        Pow2Below(c - 1, r + 1);
        PartRound(key, owner, coins, n, whole, c);
        RoundTaken(key, owner, coins, target, n);
      }
    }
  }

  lemma NearIsQuotient(amount: nat, whole: nat, r: nat)
    requires Near(amount, whole, r)
    ensures whole / Pow2(r) <= amount <= (whole + Pow2(r) - 1) / Pow2(r)
  {
    QuotientAtMost(whole, Pow2(r), amount);
    QuotientAtLeast(whole + Pow2(r) - 1, Pow2(r), amount);
  }

  lemma QuotientAtMost(n: nat, p: nat, bound: nat)
    requires p > 0 && n < (bound + 1) * p
    ensures n / p <= bound
  {
    if n / p > bound {
      Ordered(bound + 1, n / p, p);
    }
  }

  lemma QuotientAtLeast(n: nat, p: nat, bound: nat)
    requires p > 0 && bound * p <= n
    ensures bound <= n / p
  {
    assert n < (n / p + 1) * p;
    if n / p < bound {
      Ordered(n / p + 1, bound, p);
    }
  }

  lemma {:induction false} RoundsExist(target: nat) returns (c: nat)
    requires target > 0
    ensures IsRounds(c, target)
  {
    if target == 1 {
      c := 0;
    } else {
      c := RoundsExist(target - 1);
      if Pow2(c) < target {
        c := c + 1;
      }
    }
  }

  /**
   An amount of at least 2^c, `c` the logarithm of the target rounded up, is split
   into exactly the target number of coins in `c` rounds, and almost evenly.
   */
  lemma SplitReachesTarget(key: SecretKey, owner: Address, coin: UtxoItem, target: nat, c: nat)
    requires Splittable([coin]) && target > 1 && IsRounds(c, target) && coin.amount >= Pow2(c)
    ensures c > 0 && Rounds(key, owner, [coin], target) == c
    ensures var all := SplitAll(key, owner, [coin], target);
            && |all| == target
            && forall i :: 0 <= i < target ==>
                 coin.amount / Pow2(c) <= all[i].amount <= (coin.amount + Pow2(c - 1) - 1) / Pow2(c - 1)
  {
    assert c > 0 by {
      assert Pow2(0) == 1;
    }
    assert AllNear([coin], coin.amount, 0);
    ReachesFrom(key, owner, [coin], target, coin.amount, 0, c);
    var all := SplitAll(key, owner, [coin], target);
    forall i | 0 <= i < target
      ensures coin.amount / Pow2(c) <= all[i].amount <= (coin.amount + Pow2(c - 1) - 1) / Pow2(c - 1)
    {
      AlmostEvenBounds(all[i].amount, coin.amount, c);
    }
  }

  lemma AlmostEvenBounds(amount: nat, whole: nat, c: nat)
    requires c > 0 && (Near(amount, whole, c) || Near(amount, whole, c - 1))
    ensures whole / Pow2(c) <= amount <= (whole + Pow2(c - 1) - 1) / Pow2(c - 1)
  {
    var p := Pow2(c - 1);
    NearIsQuotient(amount, whole, if Near(amount, whole, c) then c else c - 1);
    MoreHalvings(whole, p);
    MoreHalvings(whole + p - 1, p);
    assert (whole + 2 * p - 1) / (2 * p) <= (whole + p - 1) / p by {
      CeilHalves(whole, p);
    }
  }

  lemma MoreHalvings(n: nat, p: nat)
    requires p > 0
    ensures n / (2 * p) <= n / p
  {
    var q := n / (2 * p);
    assert 2 * q * p <= n < (n / p + 1) * p;
    if q > n / p {
      Ordered(n / p + 1, 2 * q, p);
    }
  }

  lemma CeilHalves(n: nat, p: nat)
    requires p > 0
    ensures (n + 2 * p - 1) / (2 * p) <= (n + p - 1) / p
  {
    var q, u := (n + 2 * p - 1) / (2 * p), (n + p - 1) / p;
    assert 2 * q * p <= n + 2 * p - 1;
    assert n + p - 1 < (u + 1) * p;
    assert (u + 2) * p == (u + 1) * p + p;
    if q > u {
      Ordered(u + 2, 2 * q, p);
    }
  }

  /** Coins of at least one unit split into coins of at least one unit. */
  ghost predicate Positive(coins: seq<UtxoItem>) {
    forall i :: 0 <= i < |coins| ==> coins[i].amount > 0
  }

  lemma {:induction false} HalvedPositive(key: SecretKey, owner: Address, coins: seq<UtxoItem>)
    requires Splittable(coins) && Positive(coins)
    ensures Positive(TooSmall(coins)) && Positive(Halved(key, owner, coins))
  {
    if coins != [] {
      HalvedPositive(key, owner, coins[..|coins| - 1]);
    }
  }

  lemma {:induction false} SplitPositive(key: SecretKey, owner: Address, coins: seq<UtxoItem>, target: nat)
    requires Splittable(coins) && |coins| <= target && Positive(coins)
    ensures Positive(SplitAll(key, owner, coins, target))
    decreases target - |coins|
  {
    if |coins| < target {
      var n := ToSplit(|coins|, target);
      RoundShape(key, owner, coins, n);
      HalvedPositive(key, owner, coins[..n]);
      if Halved(key, owner, coins[..n]) != [] {
        SplitPositive(key, owner, NextRound(key, owner, coins, n), target);
      }
    }
  }

  lemma {:induction false} PositiveSum(coins: seq<UtxoItem>)
    requires Positive(coins)
    ensures Sum(coins) >= |coins|
  {
    if coins != [] {
      PositiveSum(coins[..|coins| - 1]);
    }
  }

  /** A target beyond the amount is out of reach. */
  lemma TargetNeedsUnits(key: SecretKey, owner: Address, coin: UtxoItem, target: nat)
    requires Splittable([coin]) && coin.amount < target && target > 1
    ensures |SplitAll(key, owner, [coin], target)| < target
  {
    if coin.amount == 0 {
      HalvedOne(key, owner, coin);
      assert [coin][..1] == [coin];
    } else {
      SplitPositive(key, owner, [coin], target);
      SplitKeepsSum(key, owner, [coin], target);
      PositiveSum(SplitAll(key, owner, [coin], target));
      SumOne(coin);
    }
  }

  /** A power of two is reached exactly when there is a unit for each coin. */
  lemma PowerOfTwoTarget(key: SecretKey, owner: Address, coin: UtxoItem, c: nat)
    requires Splittable([coin]) && c > 0
    ensures |SplitAll(key, owner, [coin], Pow2(c))| == Pow2(c) <==> coin.amount >= Pow2(c)
  {
    assert Pow2(c) == 2 * Pow2(c - 1);
    if coin.amount >= Pow2(c) {
      SplitReachesTarget(key, owner, coin, Pow2(c), c);
    } else {
      TargetNeedsUnits(key, owner, coin, Pow2(c));
    }
  }

  lemma {:induction false} FirstHalved(key: SecretKey, owner: Address, coins: seq<UtxoItem>)
    requires Splittable(coins) && coins != [] && coins[0].amount >= 2
    ensures Halved(key, owner, coins) != [] && Halved(key, owner, coins)[0].amount == coins[0].amount / 2
  {
    var init, last := coins[..|coins| - 1], coins[|coins| - 1];
    if init == [] {
      assert coins == [last];
      HalvedOne(key, owner, last);
    } else {
      FirstHalved(key, owner, init);
    }
  }

  lemma HalfOfQuotient(n: nat, p: nat)
    requires p > 0
    ensures n / p / 2 == n / (2 * p)
  {
    HalfAtLeast(n, p, n / p);
    HalfAtMost(n, p, n / p);
  }

  lemma HalfAtMost(n: nat, p: nat, q: nat)
    requires p > 0 && n < (q + 1) * p
    ensures n / (2 * p) <= q / 2
  {
    Ordered(q + 1, 2 * (q / 2 + 1), p);
    assert 2 * (q / 2 + 1) * p == (q / 2 + 1) * (2 * p);
    QuotientAtMost(n, 2 * p, q / 2);
  }

  lemma HalfAtLeast(n: nat, p: nat, q: nat)
    requires p > 0 && q * p <= n
    ensures q / 2 <= n / (2 * p)
  {
    Ordered(2 * (q / 2), q, p);
    assert 2 * (q / 2) * p == q / 2 * (2 * p);
    QuotientAtLeast(n, 2 * p, q / 2);
  }

  /** A full round halves the first coin, rounding down. */
  lemma FirstAfterRound(key: SecretKey, owner: Address, coins: seq<UtxoItem>, whole: nat, r: nat, k: nat)
    requires Splittable(coins) && coins != [] && AllNear(coins, whole, r) && r < k && whole >= Pow2(k)
    requires coins[0].amount == whole / Pow2(r)
    ensures var next := NextRound(key, owner, coins, |coins|);
            next != [] && next[0].amount == whole / Pow2(r + 1)
  {
    NearIsBig(coins[0].amount, whole, r, k);
    FirstHalved(key, owner, coins);
    HalvedNear(key, owner, coins, whole, r, k);
    assert coins[..|coins|] == coins && coins[|coins|..] == [];
    assert NextRound(key, owner, coins, |coins|) == Halved(key, owner, coins);
    HalfOfQuotient(whole, Pow2(r));
  }

  lemma OneUnitLeft(key: SecretKey, owner: Address, coins: seq<UtxoItem>, target: nat)
    requires Splittable(coins) && coins != [] && coins[0].amount == 1 && target == |coins| + 1
    ensures SplitAll(key, owner, coins, target) == coins
  {
    assert ToSplit(|coins|, target) == 1 && coins[..1] == [coins[0]];
    HalvedOne(key, owner, coins[0]);
  }

  /** After `k` full rounds the first coin is left with one unit, and only it is up for splitting. */
  lemma {:induction false} StuckFrom(
    key: SecretKey, owner: Address, coins: seq<UtxoItem>, whole: nat, r: nat, k: nat)
    requires Splittable(coins) && |coins| == Pow2(r) && AllNear(coins, whole, r) && r <= k
    requires coins[0].amount == whole / Pow2(r) && Pow2(k) <= whole < Pow2(k + 1)
    ensures |coins| <= Pow2(k) && |SplitAll(key, owner, coins, Pow2(k) + 1)| == Pow2(k)
    decreases k - r
  {
    Pow2Grows(r, k);
    if r == k {
      QuotientIsOne(whole, k);
      OneUnitLeft(key, owner, coins, Pow2(k) + 1);
    } else {
      Pow2Grows(r + 1, k);
      assert Pow2(r + 1) == 2 * Pow2(r);
      FullRound(key, owner, coins, whole, r, k);
      FirstAfterRound(key, owner, coins, whole, r, k);
      RoundTaken(key, owner, coins, Pow2(k) + 1, |coins|);
      StuckFrom(key, owner, NextRound(key, owner, coins, |coins|), whole, r + 1, k);
    }
  }

  lemma QuotientIsOne(n: nat, k: nat)
    requires Pow2(k) <= n < Pow2(k + 1)
    ensures n / Pow2(k) == 1
  {
    assert Pow2(k + 1) == 2 * Pow2(k);
    QuotientAtMost(n, Pow2(k), 1);
    QuotientAtLeast(n, Pow2(k), 1);
  }

  /** One coin more than a power of two is reached exactly when the next power of two is. */
  lemma OneMoreThanPower(key: SecretKey, owner: Address, coin: UtxoItem, k: nat)
    requires Splittable([coin])
    ensures |SplitAll(key, owner, [coin], Pow2(k) + 1)| == Pow2(k) + 1 <==> coin.amount >= Pow2(k + 1)
  {
    assert Pow2(k + 1) == 2 * Pow2(k);
    if coin.amount >= Pow2(k + 1) {
      SplitReachesTarget(key, owner, coin, Pow2(k) + 1, k + 1);
    } else if coin.amount < Pow2(k) + 1 {
      TargetNeedsUnits(key, owner, coin, Pow2(k) + 1);
    } else {
      assert Pow2(0) == 1 && AllNear([coin], coin.amount, 0);
      StuckFrom(key, owner, [coin], coin.amount, 0, k);
    }
  }

  /** So three units asked into three coins stay two, of 1 and 2 units. */
  lemma StopsShort(key: SecretKey, owner: Address, hash: Digest)
    ensures var coin := UtxoItem(Hash(hash), 0, 3);
            SplitAll(key, owner, [coin], 3) == Halves(key, owner, coin)
  {
    var coin := UtxoItem(Hash(hash), 0, 3);
    var pair := Halves(key, owner, coin);
    HalvedOne(key, owner, coin);
    assert [coin][..1] == [coin] && [coin][1..] == [];
    assert NextRound(key, owner, [coin], 1) == pair;
    HalvedOne(key, owner, pair[0]);
    assert pair[..1] == [pair[0]];
  }

  lemma HalvedOne(key: SecretKey, owner: Address, coin: UtxoItem)
    requires coin.amount >= 2 ==> coin.txHash.Hash?
    ensures Halved(key, owner, [coin]) == if coin.amount < 2 then [] else Halves(key, owner, coin)
    ensures TooSmall([coin]) == if coin.amount < 2 then [coin] else []
  {
    assert [coin][..0] == [];
  }

  /** The halves recorded are the coins the transfer creates: it is valid, and leaves the key owning them. */
  lemma HalvesAreCreated(key: SecretKey, coin: UtxoItem, c: Coins, height: nat)
    requires coin.txHash.Hash? && coin.amount >= 2 && HasCoins(c.utxo, key, [coin])
    ensures var owner := AddressOf(VerifyingKey(key));
            var tx := SplitTx(key, owner, coin);
            && Validation.ValidTx(tx, c.utxo)
            && HasCoins(ApplyTx(height, c, tx).utxo, key, Halves(key, owner, coin))
            && |Outs(tx)| == |Halves(key, owner, coin)|
  {
    var owner := AddressOf(VerifyingKey(key));
    var tx := SplitTx(key, owner, coin);
    SumOne(coin);
    SplitIsTransfer(key, owner, coin);
    TransferValid(tx, key, [coin], owner, coin.amount / 2, owner, c.utxo);
    assert Outs(tx).Keys == {TxOutRef(TxHash(tx), 0), TxOutRef(TxHash(tx), 1)};
    assert |Outs(tx)| == |Outs(tx).Keys|;
  }

  lemma SplitIsTransfer(key: SecretKey, owner: Address, coin: UtxoItem)
    requires coin.txHash.Hash? && coin.amount >= 2
    ensures IsTransfer(SplitTx(key, owner, coin), key, [coin], owner, coin.amount / 2, owner)
  {
    var tx := SplitTx(key, owner, coin);
    SumOne(coin);
    var half := coin.amount / 2;
    assert [TxOutput(half, owner)] + [TxOutput(coin.amount - half, owner)] == tx.outputs;
    assert InputRefs(tx) == [RefOf(coin)];
    assert WrapU64(Sum([coin])) == coin.amount;
  }
}
