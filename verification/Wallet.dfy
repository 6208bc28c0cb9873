/**
 The client's coin selection and transfer building.
 */
module Wallet {
  import opened Types
  import Conservation
  import Ledger
  import Sorting
  import Validation

  /** A transaction hash as the client receives it: hex text that may not decode to 32 bytes. */
  datatype HexHash = Hash(digest: Digest) | NotHex | WrongLength
  datatype UtxoItem = UtxoItem(txHash: HexHash, index: nat, amount: U64)

  datatype ClientError = NotEnough(have: U64, need: U64) | HexError | SerializationError

  function Sum(coins: seq<UtxoItem>): nat {
    if coins == [] then 0 else Sum(coins[..|coins| - 1]) + coins[|coins| - 1].amount
  }

  // ── Coin selection ─────────────────────────────────────────────────────────

  datatype CoinSelection = CoinSelection(selected: seq<UtxoItem>, total: U64)

  function AmountOf(coin: UtxoItem): int {
    coin.amount
  }

  ghost predicate Ascending(coins: seq<UtxoItem>) {
    forall i, j :: 0 <= i < j < |coins| ==> coins[i].amount <= coins[j].amount
  }

  /** The coins of `part` are among those of `all`, each no more often than there. */
  ghost predicate Among(part: seq<UtxoItem>, all: seq<UtxoItem>) {
    multiset(part) <= multiset(all)
  }

  /** Covers the target, but no longer does without any one of its coins. */
  ghost predicate CoversWithoutWaste(coins: seq<UtxoItem>, target: nat) {
    Sum(coins) >= target && forall i :: 0 <= i < |coins| ==> Sum(coins[..i] + coins[i + 1..]) < target
  }

  /** A selection reaches the target, with its last coin and not before, and no wasteless cover is longer. */
  ghost predicate GoodSelection(utxos: seq<UtxoItem>, target: nat, s: seq<UtxoItem>) {
    && s != [] && Among(s, utxos) && Ascending(s) && Sum(s) >= target
    && (target > 0 ==> Sum(s[..|s| - 1]) < target)
    && (target == 0 ==> |s| == 1)
    && forall cover :: Among(cover, utxos) && CoversWithoutWaste(cover, target) ==> |cover| <= |s|
  }

  ghost predicate SortedCoins(sorted: seq<UtxoItem>, utxos: seq<UtxoItem>) {
    multiset(sorted) == multiset(utxos) && Ascending(sorted)
  }

  /** The smallest coins that cover the target, and no fewer of them do (but one coin is always taken). */
  ghost predicate FirstCover(sorted: seq<UtxoItem>, k: nat, target: nat) {
    0 < k <= |sorted| && Sum(sorted[..k]) >= target && (k > 1 ==> Sum(sorted[..k - 1]) < target)
  }

  /** The smallest coins, as many as it takes. */
  ghost predicate SmallestCover(utxos: seq<UtxoItem>, target: nat, s: seq<UtxoItem>) {
    exists sorted :: SortedCoins(sorted, utxos) && FirstCover(sorted, |s|, target) && s == sorted[..|s|]
  }

  method SelectCoins(utxos: seq<UtxoItem>, target: U64) returns (r: Result<CoinSelection, ClientError>)
    ensures r.Ok? <==> utxos != [] && Sum(utxos) >= target
    ensures r.Err? ==> r.error == NotEnough(WrapU64(Sum(utxos)), target)
    ensures r.Ok? ==>
      GoodSelection(utxos, target, r.value.selected) && r.value.total == Min(Sum(r.value.selected), U64_MAX)
    ensures r.Ok? ==> SmallestCover(utxos, target, r.value.selected)
  {
    var sorted := Sorting.SortUnstableByKey(utxos, AmountOf);
    SortedAscending(sorted);
    var selected, total := Accumulate(sorted, target);
    if selected != [] && total >= target {
      PrefixSelected(utxos, sorted, |selected|, target);
      return Ok(CoinSelection(selected, total));
    }
    SameSum(sorted, utxos);
    Sorting.SameElements(sorted, utxos);
    return Err(NotEnough(WrapU64(Sum(utxos)), target));
  }

  /** Coins taken in order until they reach the target; all of them if they never do. */
  method Accumulate(sorted: seq<UtxoItem>, target: U64) returns (selected: seq<UtxoItem>, total: U64)
    ensures |selected| <= |sorted| && selected == sorted[..|selected|]
    ensures total == Min(Sum(selected), U64_MAX)
    ensures |selected| > 1 ==> Sum(sorted[..|selected| - 1]) < target
    ensures total < target || selected == [] ==> selected == sorted
  {
    selected, total := [], 0;
    for k := 0 to |sorted|
      invariant selected == sorted[..k]
      invariant total == Min(Sum(selected), U64_MAX)
      invariant k > 0 ==> Sum(selected) < target
      invariant k > 1 ==> Sum(sorted[..k - 1]) < target
    {
      assert sorted[..k + 1] == selected + [sorted[k]];
      assert sorted[..k + 1][..k] == selected;
      selected := selected + [sorted[k]];
      total := SaturatingAdd(total, sorted[k].amount);
      if total >= target {
        return;
      }
    }
  }

  lemma PrefixSelected(utxos: seq<UtxoItem>, sorted: seq<UtxoItem>, k: nat, target: nat)
    requires multiset(sorted) == multiset(utxos) && Ascending(sorted) && 0 < k <= |sorted|
    requires Sum(sorted[..k]) >= target && (k > 1 ==> Sum(sorted[..k - 1]) < target)
    ensures GoodSelection(utxos, target, sorted[..k]) && SmallestCover(utxos, target, sorted[..k])
    ensures utxos != [] && Sum(utxos) >= target
  {
    Sorting.SameElements(sorted, utxos);
    SameSum(sorted, utxos);
    PrefixSum(sorted, k);
    PrefixIsGood(utxos, sorted, k, target, sorted[..k]);
    assert FirstCover(sorted, k, target);
  }

  lemma PrefixIsGood(utxos: seq<UtxoItem>, sorted: seq<UtxoItem>, k: nat, target: nat, s: seq<UtxoItem>)
    requires SortedCoins(sorted, utxos) && FirstCover(sorted, k, target) && s == sorted[..k]
    ensures GoodSelection(utxos, target, s)
  {
    PrefixAmong(sorted, k);
    assert s[..k - 1] == sorted[..k - 1];
    forall cover | Among(cover, utxos) && CoversWithoutWaste(cover, target) ensures |cover| <= |s| {
      NoLongerCover(sorted, k, cover, target);
    }
  }

  lemma SortedAscending(s: seq<UtxoItem>)
    requires Sorting.SortedBy(s, AmountOf)
    ensures Ascending(s)
  {
    forall i, j | 0 <= i < j < |s| ensures s[i].amount <= s[j].amount {
      assert AmountOf(s[i]) <= AmountOf(s[j]);
    }
  }

  lemma PrefixAmong(s: seq<UtxoItem>, k: nat)
    requires k <= |s|
    ensures Among(s[..k], s)
  {
    assert s == s[..k] + s[k..];
  }

  lemma {:induction false} PrefixSum(s: seq<UtxoItem>, k: nat)
    requires k <= |s|
    ensures Sum(s[..k]) <= Sum(s)
  {
    if k < |s| {
      PrefixSum(s[..|s| - 1], k);
      assert s[..|s| - 1][..k] == s[..k];
    } else {
      assert s[..k] == s;
    }
  }

  /** Taking one coin out of the middle takes its amount out of the sum. */
  lemma {:induction false} SumWithout(s: seq<UtxoItem>, i: nat)
    requires i < |s|
    ensures Sum(s) == Sum(s[..i] + s[i + 1..]) + s[i].amount
  {
    var rest := s[..i] + s[i + 1..];
    if i == |s| - 1 {
      assert rest == s[..i];
    } else {
      var init := s[..|s| - 1];
      SumWithout(init, i);
      assert rest[..|rest| - 1] == init[..i] + init[i + 1..];
    }
  }

  lemma MultisetWithout(s: seq<UtxoItem>, i: nat)
    requires i < |s|
    ensures multiset(s[..i] + s[i + 1..]) == multiset(s) - multiset{s[i]}
  {
    assert s == s[..i] + [s[i]] + s[i + 1..];
  }

  lemma {:induction false} SameSum(a: seq<UtxoItem>, b: seq<UtxoItem>)
    requires multiset(a) == multiset(b)
    ensures Sum(a) == Sum(b)
  {
    Sorting.SameElements(a, b);
    if a != [] {
      var last := a[|a| - 1];
      assert last in b;
      var i :| 0 <= i < |b| && b[i] == last;
      MultisetWithout(a, |a| - 1);
      MultisetWithout(b, i);
      assert a[..|a| - 1] + a[|a|..] == a[..|a| - 1];
      SameSum(a[..|a| - 1], b[..i] + b[i + 1..]);
      SumWithout(b, i);
    }
  }

  lemma AmongSize(part: seq<UtxoItem>, all: seq<UtxoItem>)
    requires Among(part, all)
    ensures |part| <= |all|
  {
    assert multiset(all) == multiset(part) + (multiset(all) - multiset(part));
    assert |part| == |multiset(part)| && |all| == |multiset(all)|;
  }

  lemma AmongInit(part: seq<UtxoItem>, all: seq<UtxoItem>)
    requires Among(part, all) && all != [] && all[|all| - 1] !in part
    ensures Among(part, all[..|all| - 1])
  {
    assert all == all[..|all| - 1] + [all[|all| - 1]];
    assert multiset(part)[all[|all| - 1]] == 0;
  }

  lemma AmongWithout(part: seq<UtxoItem>, all: seq<UtxoItem>, i: nat)
    requires Among(part, all) && all != [] && i < |part| && part[i] == all[|all| - 1]
    ensures Among(part[..i] + part[i + 1..], all[..|all| - 1])
  {
    MultisetWithout(part, i);
    assert all == all[..|all| - 1] + [all[|all| - 1]];
  }

  /** As many coins as `part` has, taken from the small end, are worth no more than `part`. */
  lemma {:induction false} SmallestAreLeast(sorted: seq<UtxoItem>, part: seq<UtxoItem>)
    requires Ascending(sorted) && Among(part, sorted)
    ensures |part| <= |sorted| && Sum(sorted[..|part|]) <= Sum(part)
  {
    AmongSize(part, sorted);
    if part != [] {
      var init, last := sorted[..|sorted| - 1], sorted[|sorted| - 1];
      if last in part {
        var i :| 0 <= i < |part| && part[i] == last;
        var fewer := part[..i] + part[i + 1..];
        AmongWithout(part, sorted, i);
        SmallestAreLeast(init, fewer);
        SumWithout(part, i);
        assert init[..|fewer|] == sorted[..|part|][..|part| - 1];
      } else {
        AmongInit(part, sorted);
        SmallestAreLeast(init, part);
        assert init[..|part|] == sorted[..|part|];
      }
    }
  }

  /** A cover longer than the `k` smallest coins that reach the target has a coin to spare. */
  lemma NoLongerCover(sorted: seq<UtxoItem>, k: nat, cover: seq<UtxoItem>, target: nat)
    requires Ascending(sorted) && k <= |sorted| && Sum(sorted[..k]) >= target
    requires Among(cover, sorted) && CoversWithoutWaste(cover, target)
    ensures |cover| <= k
  {
    if |cover| > k {
      var i := |cover| - 1;
      var fewer := cover[..i] + cover[i + 1..];
      MultisetWithout(cover, i);
      SmallestAreLeast(sorted, fewer);
      assert sorted[..|fewer|][..k] == sorted[..k];
      PrefixSum(sorted[..|fewer|], k);
    }
  }

  // ── When the selection is minimal ──────────────────────────────────────────

  /** Of the coins of a cover the smallest is the easiest to spare: none is wasted exactly when that one is not. */
  lemma WastelessIff(s: seq<UtxoItem>, target: nat)
    requires s != [] && Ascending(s) && Sum(s) >= target
    ensures CoversWithoutWaste(s, target) <==> Sum(s[1..]) < target
  {
    assert s[..0] + s[0 + 1..] == s[1..];
    SumWithout(s, 0);
    forall i | 0 <= i < |s| ensures Sum(s[..i] + s[i + 1..]) <= Sum(s[1..]) {
      SumWithout(s, i);
    }
  }

  /** As many coins as `part` has, taken from the large end, are worth at least as much as `part`. */
  lemma {:induction false} LargestAreMost(sorted: seq<UtxoItem>, part: seq<UtxoItem>)
    requires Ascending(sorted) && Among(part, sorted)
    ensures |part| <= |sorted| && Sum(part) <= Sum(sorted[|sorted| - |part|..])
  {
    AmongSize(part, sorted);
    if part != [] {
      var init, last := sorted[..|sorted| - 1], sorted[|sorted| - 1];
      if last !in part {
        AmongInit(part, sorted);
      }
      var i: nat := if last in part then IndexIn(part, last) else 0;
      var fewer := part[..i] + part[i + 1..];
      NoLargerThanLast(sorted, part, i);
      if last in part {
        AmongWithout(part, sorted, i);
      } else {
        FewerAmong(part, init, i);
      }
      LargestAreMost(init, fewer);
      SumWithout(part, i);
      var top := sorted[|sorted| - |part|..];
      assert top[..|top| - 1] == init[|init| - |fewer|..];
    }
  }

  ghost function IndexIn(s: seq<UtxoItem>, x: UtxoItem): (i: nat)
    requires x in s
    ensures i < |s| && s[i] == x
  {
    var i :| 0 <= i < |s| && s[i] == x;
    i
  }

  lemma NoLargerThanLast(sorted: seq<UtxoItem>, part: seq<UtxoItem>, i: nat)
    requires Ascending(sorted) && Among(part, sorted) && i < |part|
    ensures sorted != [] && part[i].amount <= sorted[|sorted| - 1].amount
  {
    assert part[i] in multiset(part);
    assert part[i] in sorted;
  }

  lemma FewerAmong(part: seq<UtxoItem>, all: seq<UtxoItem>, i: nat)
    requires Among(part, all) && i < |part|
    ensures Among(part[..i] + part[i + 1..], all)
  {
    MultisetWithout(part, i);
  }

  /** No cover has fewer coins. */
  ghost predicate FewestCoins(utxos: seq<UtxoItem>, target: nat, count: nat) {
    forall cover :: Among(cover, utxos) && Sum(cover) >= target ==> count <= |cover|
  }

  /**
   What "minimal" can mean, and when it is met; the coins sorted by amount tell
   beforehand. No coin is redundant exactly when the total without the smallest
   coin falls short. No cover has fewer coins exactly when one coin less, taken
   from the large end, falls short.
   */
  lemma MinimalIff(utxos: seq<UtxoItem>, sorted: seq<UtxoItem>, k: nat, target: nat)
    requires SortedCoins(sorted, utxos) && FirstCover(sorted, k, target)
    ensures CoversWithoutWaste(sorted[..k], target) <==> Sum(sorted[1..k]) < target
    ensures FewestCoins(utxos, target, k) <==> Sum(sorted[|sorted| - (k - 1)..]) < target
  {
    WastelessIff(sorted[..k], target);
    assert sorted[..k][1..] == sorted[1..k];
    if Sum(sorted[|sorted| - (k - 1)..]) < target {
      FewestWhen(utxos, sorted, k, target);
    } else {
      SuffixAmong(sorted, |sorted| - (k - 1));
      assert Among(sorted[|sorted| - (k - 1)..], utxos);
    }
  }

  lemma FewestWhen(utxos: seq<UtxoItem>, sorted: seq<UtxoItem>, k: nat, target: nat)
    requires SortedCoins(sorted, utxos) && 0 < k <= |sorted|
    requires Sum(sorted[|sorted| - (k - 1)..]) < target
    ensures FewestCoins(utxos, target, k)
  {
    forall cover | Among(cover, utxos) && Sum(cover) >= target ensures k <= |cover| {
      LargestAreMost(sorted, cover);
      if |cover| < k {
        SuffixSum(sorted, |sorted| - (k - 1), |sorted| - |cover|);
      }
    }
  }

  lemma SuffixAmong(s: seq<UtxoItem>, k: nat)
    requires k <= |s|
    ensures Among(s[k..], s)
  {
    assert s == s[..k] + s[k..];
  }

  lemma {:induction false} SuffixSum(s: seq<UtxoItem>, a: nat, b: nat)
    requires a <= b <= |s|
    ensures Sum(s[b..]) <= Sum(s[a..])
  {
    if b < |s| {
      var init := s[..|s| - 1];
      SuffixSum(init, a, b);
      assert s[a..][..|s[a..]| - 1] == init[a..] && s[b..][..|s[b..]| - 1] == init[b..];
    } else {
      assert s[b..] == [];
    }
  }

  /** Coins of 1 and 10 units for a target of 10: both are taken, and the second alone would do. */
  lemma SelectionWastes(hash: Digest)
    ensures var one, ten := UtxoItem(Hash(hash), 0, 1), UtxoItem(Hash(hash), 1, 10);
            && SortedCoins([one, ten], [one, ten]) && FirstCover([one, ten], 2, 10)
            && !CoversWithoutWaste([one, ten], 10) && !FewestCoins([one, ten], 10, 2)
  {
    var one, ten := UtxoItem(Hash(hash), 0, 1), UtxoItem(Hash(hash), 1, 10);
    var both := [one, ten];
    assert both[..1] == [one] && both[1..2] == [ten] && both[2 - 1..] == [ten] && both[..2] == both;
    assert [one][..0] == [] && [ten][..0] == [];
    assert Sum([one]) == 1 && Sum([ten]) == 10 && Sum(both) == 11;
    MinimalIff(both, both, 2, 10);
  }

  // ── Building a transfer ────────────────────────────────────────────────────

  predicate Decodes(coins: seq<UtxoItem>) {
    forall i :: 0 <= i < |coins| ==> coins[i].txHash.Hash?
  }

  function RefOf(coin: UtxoItem): TxOutRef
    requires coin.txHash.Hash?
  {
    TxOutRef(coin.txHash.digest, coin.index)
  }

  /** First the payment to the recipient, then what is left, if anything, to the change address. */
  ghost predicate PaysOut(outputs: seq<TxOutput>, total: U64, recipient: Address, amount: U64, change: Address) {
    && |outputs| == (if total > amount then 2 else 1)
    && outputs[0].amount == amount && outputs[0].address == recipient
    && (total > amount ==> outputs[1].amount == total - amount && outputs[1].address == change)
  }

  /** A transfer of the coins: every input names its coin and signs kind, references and outputs. */
  ghost predicate IsTransfer(
    tx: Transaction, key: SecretKey, coins: seq<UtxoItem>, recipient: Address, amount: U64, change: Address)
  {
    && Decodes(coins) && tx.kind == Transfer && |tx.inputs| == |coins|
    && PaysOut(tx.outputs, WrapU64(Sum(coins)), recipient, amount, change)
    && forall i :: 0 <= i < |coins| ==>
         && tx.inputs[i].outRef.txHash == coins[i].txHash.digest && tx.inputs[i].outRef.index == coins[i].index
         && tx.inputs[i].pubkey == VerifyingKey(key)
         && tx.inputs[i].signature == Sign(key, TxSigningBytes(tx))
  }

  method BuildTransfer(key: SecretKey, coins: seq<UtxoItem>, recipient: Address, amount: U64, change: Address)
    returns (r: Result<Transaction, ClientError>)
    ensures r.Ok? <==> Decodes(coins)
    ensures r.Ok? ==> IsTransfer(r.value, key, coins, recipient, amount, change)
    ensures r.Err? ==> exists i ::
      && 0 <= i < |coins| && (forall j :: 0 <= j < i ==> coins[j].txHash.Hash?)
      && (coins[i].txHash.NotHex? ==> r.error == HexError)
      && (coins[i].txHash.WrongLength? ==> r.error == SerializationError)
      && !coins[i].txHash.Hash?
  {
    var total := WrapU64(Sum(coins));
    var outputs := [TxOutput(amount, recipient)];
    if total > amount {
      outputs := outputs + [TxOutput(total - amount, change)];
    }
    var inputs: seq<TxInput> := [];
    for k := 0 to |coins|
      invariant |inputs| == k
      invariant forall i :: 0 <= i < k ==> coins[i].txHash.Hash?
      invariant forall i :: 0 <= i < k ==> inputs[i] == TxInput(RefOf(coins[i]), ZERO_SIGNATURE, VerifyingKey(key))
    {
      match coins[k].txHash
      case NotHex => return Err(HexError);
      case WrongLength => return Err(SerializationError);
      case Hash(digest) =>
        inputs := inputs + [TxInput(TxOutRef(digest, coins[k].index), ZERO_SIGNATURE, VerifyingKey(key))];
    }
    var tx := Transaction(Transfer, inputs, outputs);
    var msg := TxSigningBytes(tx);
    for k := 0 to |inputs|
      invariant |tx.inputs| == |inputs| && tx.kind == Transfer && tx.outputs == outputs
      invariant forall i :: 0 <= i < |inputs| ==>
        tx.inputs[i].outRef == inputs[i].outRef && tx.inputs[i].pubkey == inputs[i].pubkey
      invariant forall i :: 0 <= i < k ==> tx.inputs[i].signature == Sign(key, msg)
    {
      tx := tx.(inputs := tx.inputs[k := tx.inputs[k].(signature := Sign(key, msg))]);
    }
    assert TxSigningBytes(tx) == msg by {
      assert InputRefs(tx) == InputRefs(Transaction(Transfer, inputs, outputs));
    }
    return Ok(tx);
  }

  /** Without underfunding the outputs add up to the coins spent. */
  lemma TransferBalances(
    tx: Transaction, key: SecretKey, coins: seq<UtxoItem>, recipient: Address, amount: U64, change: Address)
    requires IsTransfer(tx, key, coins, recipient, amount, change) && Sum(coins) <= U64_MAX
    ensures OutTotal(tx.outputs) == if Sum(coins) >= amount then Sum(coins) else amount
  {
    var payment := TxOutput(amount, recipient);
    assert OutTotal([payment]) == amount by {
      assert [payment][..0] == [];
    }
    assert tx.outputs[..1] == [payment];
    assert |tx.outputs| == 1 ==> tx.outputs == [payment];
  }

  /** Every coin is in the map, with its amount, owned by the key. */
  ghost predicate HasCoins(utxo: Ledger.Utxo, key: SecretKey, coins: seq<UtxoItem>)
    requires Decodes(coins)
  {
    forall i :: 0 <= i < |coins| ==>
      RefOf(coins[i]) in utxo && utxo[RefOf(coins[i])] == TxOutput(coins[i].amount, AddressOf(VerifyingKey(key)))
  }

  lemma {:induction false} CoinsAreInputs(inputs: seq<TxInput>, utxo: Ledger.Utxo, coins: seq<UtxoItem>)
    requires Decodes(coins) && |inputs| == |coins|
    requires forall i :: 0 <= i < |coins| ==>
      && inputs[i].outRef == RefOf(coins[i])
      && inputs[i].outRef in utxo && utxo[inputs[i].outRef].amount == coins[i].amount
    ensures Validation.InTotal(inputs, utxo) == Sum(coins)
  {
    if coins != [] {
      CoinsAreInputs(inputs[..|inputs| - 1], utxo, coins[..|coins| - 1]);
    }
  }

  /** On a UTXO set with those coins the transfer is valid exactly when it pays something it can afford. */
  lemma TransferValid(
    tx: Transaction, key: SecretKey, coins: seq<UtxoItem>, recipient: Address, amount: U64, change: Address,
    utxo: Ledger.Utxo)
    requires IsTransfer(tx, key, coins, recipient, amount, change) && Sum(coins) <= U64_MAX
    requires HasCoins(utxo, key, coins)
    ensures Validation.ValidTx(tx, utxo) <==> 0 < amount <= Sum(coins)
  {
    TransferBalances(tx, key, coins, recipient, amount, change);
    CoinsAreInputs(tx.inputs, utxo, coins);
    forall input | input in tx.inputs ensures Validation.InputOk(tx, input, utxo) {
      var i :| 0 <= i < |tx.inputs| && tx.inputs[i] == input;
      assert RefOf(coins[i]) in utxo;
    }
    assert tx.outputs[0] in tx.outputs;
  }

  // ── What a transfer does to the balances ───────────────────────────────────

  ghost predicate NoCoinTwice(coins: seq<UtxoItem>)
    requires Decodes(coins)
  {
    forall i, j :: 0 <= i < j < |coins| ==> RefOf(coins[i]) != RefOf(coins[j])
  }

  lemma SpentWorth(
    tx: Transaction, key: SecretKey, coins: seq<UtxoItem>, recipient: Address, amount: U64, change: Address,
    utxo: Ledger.Utxo)
    requires IsTransfer(tx, key, coins, recipient, amount, change)
    requires HasCoins(utxo, key, coins) && NoCoinTwice(coins)
    ensures Conservation.Value(Ledger.Part(utxo, Ledger.Ins(tx))) == Sum(coins)
  {
    Conservation.PairwiseDistinct(tx.inputs);
    Ledger.InRefsAreIns(tx);
    Conservation.MentionsWorth(utxo, tx.inputs);
    CoinsAreInputs(tx.inputs, utxo, coins);
  }

  /** What the owner of the key gives up: the coins, and nobody else loses anything. */
  lemma SpentByPayer(
    tx: Transaction, key: SecretKey, coins: seq<UtxoItem>, recipient: Address, amount: U64, change: Address,
    utxo: Ledger.Utxo, owner: Address)
    requires IsTransfer(tx, key, coins, recipient, amount, change)
    requires HasCoins(utxo, key, coins) && NoCoinTwice(coins)
    ensures Conservation.Balance(utxo, owner)
         == Conservation.Balance(utxo - Ledger.Ins(tx), owner)
            + (if owner == AddressOf(VerifyingKey(key)) then Sum(coins) else 0)
  {
    var spent := Ledger.Part(utxo, Ledger.Ins(tx));
    Conservation.BalanceOfUnion(utxo - Ledger.Ins(tx), spent, owner);
    assert utxo - Ledger.Ins(tx) + spent == utxo;
    SpentWorth(tx, key, coins, recipient, amount, change, utxo);
    if owner == AddressOf(VerifyingKey(key)) {
      assert Conservation.Owned(spent, owner) == spent;
    } else {
      assert Conservation.Owned(spent, owner) == map[];
    }
  }

  lemma PaidByOutputs(tx: Transaction, total: U64, recipient: Address, amount: U64, change: Address, owner: Address)
    requires PaysOut(tx.outputs, total, recipient, amount, change) && amount <= total
    ensures Conservation.Balance(Ledger.Outs(tx), owner)
         == (if owner == recipient then amount else 0) + (if owner == change then total - amount else 0)
  {
    assert Conservation.Owned(Ledger.OutsUpTo(tx, 0), owner) == map[];
    Ledger.OutsUpToStep(tx, 0);
    Conservation.BalanceWith(Ledger.OutsUpTo(tx, 0), TxOutRef(TxHash(tx), 0), tx.outputs[0], owner);
    if total > amount {
      Ledger.OutsUpToStep(tx, 1);
      Conservation.BalanceWith(Ledger.OutsUpTo(tx, 1), TxOutRef(TxHash(tx), 1), tx.outputs[1], owner);
    }
    Ledger.OutsUpToAll(tx);
  }

  /**
   Once applied, a transfer of distinct coins takes what they are worth from the
   payer, gives the amount to the recipient and the rest to the change address,
   and leaves every other balance alone. The three may be the same address.
   */
  lemma TransferPays(
    tx: Transaction, key: SecretKey, coins: seq<UtxoItem>, recipient: Address, amount: U64, change: Address,
    height: nat, c: Ledger.Coins, owner: Address)
    requires IsTransfer(tx, key, coins, recipient, amount, change) && amount <= Sum(coins) <= U64_MAX
    requires HasCoins(c.utxo, key, coins) && NoCoinTwice(coins) && Ledger.Outs(tx).Keys !! c.utxo.Keys
    ensures Conservation.Balance(Ledger.ApplyTx(height, c, tx).utxo, owner)
         == Conservation.Balance(c.utxo, owner)
            - (if owner == AddressOf(VerifyingKey(key)) then Sum(coins) else 0)
            + (if owner == recipient then amount else 0)
            + (if owner == change then Sum(coins) - amount else 0)
  {
    SpentByPayer(tx, key, coins, recipient, amount, change, c.utxo, owner);
    PaidByOutputs(tx, Sum(coins), recipient, amount, change, owner);
    Conservation.BalanceOfUnion(c.utxo - Ledger.Ins(tx), Ledger.Outs(tx), owner);
  }
}
