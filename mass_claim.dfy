/** The mass-claim task: which proven claims it pays for, and how it picks the
    claims still open in the virtual token's registry and claims them in
    batches. The registry's `isClaimed(index)` is membership of the index in a
    set of claimed indices; the `claimMany` transaction is not modelled beyond
    the list of claims it is sent. */
module MassClaim {
  import opened Wrappers
  import opened Seqs
  import opened Arith
  import opened Claims
  import opened Tokens
  import Split

  /** Claims whose status `takeOpenClaims` queries at once (`MAX_BATCH_SIZE`). */
  const MaxBatchSize: nat := 20

  /** Claims sent in one `claimMany` transaction at most (`MAX_CLAIMS_IN_BATCH`). */
  const MaxClaimsInBatch: nat := 20

  // ---------------------------------------------------------------------------
  // Filters

  /** The payment token a claim type is paid with, if it needs one. */
  function RequiredToken(t: ClaimType): Option<PaymentLabel>
  {
    match t
    case Investor => Some(Usdc)
    case GnoOption => Some(Gno)
    case UserOption => Some(Weth)
    case _ => None
  }

  /** The table of paid claim types, in the order the task lists them. */
  const PaidClaimTypes: seq<(PaymentLabel, ClaimType)> := [(Usdc, Investor), (Gno, GnoOption), (Weth, UserOption)]

  /** The claim types skipped because the payer does not pay with their token,
      in table order. */
  function SkippedClaimTypes(paying: set<PaymentLabel>): (skipped: seq<ClaimType>)
    ensures forall t :: t in skipped <==> RequiredToken(t).Some? && RequiredToken(t).value !in paying
  {
    var table := PaidClaimTypes;
    (if table[0].0 in paying then [] else [table[0].1])
    + (if table[1].0 in paying then [] else [table[1].1])
    + (if table[2].0 in paying then [] else [table[2].1])
  }

  /** Drop the claims of the skipped types. */
  function FilterPaidClaims(claims: seq<ProvenClaim>, paying: set<PaymentLabel>): (r: seq<ProvenClaim>)
  {
    var skipped := SkippedClaimTypes(paying);
    Filter(claims, (c: ProvenClaim) => c.claimType !in skipped)
  }

  /** A claim survives the payment filter exactly when its type needs no payment
      or the payer pays with the token it needs. */
  lemma PaidClaimKept(claims: seq<ProvenClaim>, paying: set<PaymentLabel>, c: ProvenClaim)
    ensures c in FilterPaidClaims(claims, paying)
      <==> c in claims && (RequiredToken(c.claimType).None? || RequiredToken(c.claimType).value in paying)
  {
  }

  /** The first claim, in order, whose account `checksum` rejects. */
  function FirstInvalid(claims: seq<ProvenClaim>, checksum: string -> Option<string>): (r: Option<ProvenClaim>)
    ensures r.None? <==> forall c :: c in claims ==> checksum(c.account).Some?
    ensures r.Some? ==> r.value in claims && checksum(r.value.account).None?
  {
    if claims == [] then None
    else if checksum(claims[0].account).None? then Some(claims[0])
    else FirstInvalid(claims[1..], checksum)
  }

  /** The address-pool test: the account, checksummed, is in the pool. */
  function InPool(pool: seq<string>, checksum: string -> Option<string>): ProvenClaim -> bool
  {
    (c: ProvenClaim) => checksum(c.account).Some? && checksum(c.account).value in pool
  }

  /** Keep the claims whose checksummed account is in the address pool, in
      order; no pool keeps every claim. `checksum` stands for `utils.getAddress`,
      which throws on text that is not an address: the first claim whose
      account it rejects makes the whole filter fail. */
  function FilterAddressPool(claims: seq<ProvenClaim>, addressPool: Option<seq<string>>, checksum: string -> Option<string>): (r: Result<seq<ProvenClaim>>)
    ensures addressPool.None? ==> r == Ok(claims)
    ensures addressPool.Some? ==>
      (r.Err? <==> exists c :: c in claims && checksum(c.account).None?)
    ensures r.Ok? && addressPool.Some? ==>
      forall c :: c in r.value <==> c in claims && checksum(c.account).Some? && checksum(c.account).value in addressPool.value
    ensures r.Ok? ==> |r.value| <= |claims|
  {
    if addressPool.None? then Ok(claims)
    else
      match FirstInvalid(claims, checksum)
      case Some(bad) => Err("invalid address " + bad.account)
      case None => Ok(Filter(claims, InPool(addressPool.value, checksum)))
  }

  /** With a pool, the kept claims are the pool test's `Filter` of the claims:
      they come in the order of `claims` (`Seqs.FilterInOrder`) and every claim
      passing the test is kept (`Seqs.FilterDropsNothing`). */
  lemma AddressPoolKeepsOrder(claims: seq<ProvenClaim>, pool: seq<string>, checksum: string -> Option<string>)
    requires forall c :: c in claims ==> checksum(c.account).Some?
    ensures FilterAddressPool(claims, Some(pool), checksum) == Ok(Filter(claims, InPool(pool, checksum)))
  {
  }

  // ---------------------------------------------------------------------------
  // Executing a claim

  /** `fullyExecuteClaim`: the claim with its whole claimable amount claimed. */
  function FullyExecuteClaim(claim: ProvenClaim): (e: ExecutableClaim)
    ensures ProvenPart(e) == claim && e.claimedAmount == claim.claimableAmount
  {
    ExecutableClaim(claim.account, claim.claimType, claim.claimableAmount, claim.index, claim.proof, claim.claimableAmount)
  }

  /** The proven claim an executable claim carries. */
  function ProvenPart(e: ExecutableClaim): ProvenClaim
  {
    ProvenClaim(e.account, e.claimType, e.claimableAmount, e.index, e.proof)
  }

  /** An executable claim that claims everything is the execution of its proven part. */
  lemma FullyExecutedIsExecution(e: ExecutableClaim)
    requires e.claimedAmount == e.claimableAmount
    ensures FullyExecuteClaim(ProvenPart(e)) == e
  {
  }

  function ExecuteAll(claims: seq<ProvenClaim>): (r: seq<ExecutableClaim>)
    ensures |r| == |claims| && forall i :: 0 <= i < |claims| ==> r[i] == FullyExecuteClaim(claims[i])
  {
    seq(|claims|, i requires 0 <= i < |claims| => FullyExecuteClaim(claims[i]))
  }

  function AccountsOf(claims: seq<ExecutableClaim>): (r: seq<string>)
    ensures |r| == |claims| && forall i :: 0 <= i < |claims| ==> r[i] == claims[i].account
  {
    seq(|claims|, i requires 0 <= i < |claims| => claims[i].account)
  }

  // ---------------------------------------------------------------------------
  // Taking open claims

  /** The claims of `claims` not marked as claimed in the registry, in order. */
  function OpenOf(claims: seq<ProvenClaim>, claimed: set<nat>): seq<ProvenClaim>
  {
    Filter(claims, IsOpen(claimed))
  }

  /** The test `!isClaimed(claim.index)`. */
  function IsOpen(claimed: set<nat>): ProvenClaim -> bool
  {
    (c: ProvenClaim) => c.index !in claimed
  }

  /** A claim is open in a stretch of the pool exactly when it lies in that
      stretch and its index is not marked as claimed. */
  lemma OpenOfMembers(claims: seq<ProvenClaim>, claimed: set<nat>, c: ProvenClaim)
    ensures c in OpenOf(claims, claimed) <==> c in claims && c.index !in claimed
  {
  }

  /** The indices whose status is queried for `claims`. */
  function IndicesOf(claims: seq<ProvenClaim>): (r: seq<nat>)
    ensures |r| == |claims| && forall i :: 0 <= i < |claims| ==> r[i] == claims[i].index
  {
    seq(|claims|, i requires 0 <= i < |claims| => claims[i].index)
  }

  /** Where `takeOpenClaims` stops: after the first `m >= 1` claims have been
      consumed and exactly `amount` of them were open, or at the end of the
      pool if that never happens. */
  ghost predicate StopsAt(amount: int, claims: seq<ProvenClaim>, claimed: set<nat>, m: nat)
  {
    && m <= |claims|
    && (m == |claims| || (m >= 1 && |OpenOf(claims[..m], claimed)| == amount))
    && forall j :: 1 <= j < m ==> |OpenOf(claims[..j], claimed)| != amount
  }

  /** Each further claim adds at most one open claim. */
  lemma OpenOfStep(claims: seq<ProvenClaim>, claimed: set<nat>, j: nat)
    requires j < |claims|
    ensures OpenOf(claims[..j + 1], claimed)
      == OpenOf(claims[..j], claimed) + (if claims[j].index in claimed then [] else [claims[j]])
  {
    assert claims[..j + 1][..j] == claims[..j];
  }

  /** The open count climbs one step at a time, so it passes through every value
      up to its final one. */
  lemma {:induction false} OpenCountPasses(claims: seq<ProvenClaim>, claimed: set<nat>, m: nat, amount: nat) returns (j: nat)
    requires m <= |claims| && amount <= |OpenOf(claims[..m], claimed)|
    ensures j <= m && |OpenOf(claims[..j], claimed)| == amount
  {
    if amount == |OpenOf(claims[..m], claimed)| {
      j := m;
    } else {
      OpenOfStep(claims, claimed, m - 1);
      j := OpenCountPasses(claims, claimed, m - 1, amount);
    }
  }

  /** For a positive `amount`, no more than `amount` claims are taken, and
      exactly `amount` whenever the pool holds that many open claims. */
  lemma TakeBounds(amount: int, claims: seq<ProvenClaim>, claimed: set<nat>, m: nat)
    requires amount >= 1 && StopsAt(amount, claims, claimed, m)
    ensures |OpenOf(claims[..m], claimed)| <= amount
    ensures |OpenOf(claims, claimed)| >= amount ==> |OpenOf(claims[..m], claimed)| == amount
  {
    if m == |claims| {
      assert claims[..m] == claims;
    }
    if |OpenOf(claims[..m], claimed)| >= amount {
      var j := OpenCountPasses(claims, claimed, m, amount);
      assert claims[..0] == [];
      assert j == m;
    }
  }

  /** A negative `amount` is never reached: the whole pool is consumed and every
      open claim in it is taken. */
  lemma NegativeAmountTakesAll(amount: int, claims: seq<ProvenClaim>, claimed: set<nat>, m: nat)
    requires amount < 0 && StopsAt(amount, claims, claimed, m)
    ensures m == |claims| && OpenOf(claims[..m], claimed) == OpenOf(claims, claimed)
  {
    assert claims[..|claims|] == claims;
  }

  /** The stopping point is unique. */
  lemma StopsAtUnique(amount: int, claims: seq<ProvenClaim>, claimed: set<nat>, m1: nat, m2: nat)
    requires StopsAt(amount, claims, claimed, m1) && StopsAt(amount, claims, claimed, m2)
    ensures m1 == m2
  {
  }

  /** The outcome of `takeOpenClaims`: `remaining` is what follows the consumed
      prefix of the pool, `taken` the open claims of that prefix in order, and
      the prefix ends where the scan stops. */
  ghost predicate TakesOpenClaims(amount: int, claims: seq<ProvenClaim>, claimed: set<nat>, taken: seq<ProvenClaim>, remaining: seq<ProvenClaim>)
  {
    && |remaining| <= |claims|
    && var m := |claims| - |remaining|;
    && remaining == claims[m..]
    && taken == OpenOf(claims[..m], claimed)
    && StopsAt(amount, claims, claimed, m)
  }

  /** The status lookups of `takeOpenClaims`: windows of at most `MaxBatchSize`
      indices, all full but the last, that together query the front of the pool
      in order, cover the consumed prefix, and whose last window starts inside it
      (or is the only one). */
  ghost predicate QueriedInWindows(claims: seq<ProvenClaim>, remaining: seq<ProvenClaim>, queried: seq<seq<nat>>)
  {
    && |remaining| <= |claims|
    && |queried| >= 1
    && (forall k :: 0 <= k < |queried| ==> |queried[k]| <= MaxBatchSize)
    && (forall k :: 0 <= k < |queried| - 1 ==> |queried[k]| == MaxBatchSize)
    && var m := |claims| - |remaining|;
    && m <= |Flatten(queried)| <= |claims|
    && Flatten(queried) == IndicesOf(claims[..|Flatten(queried)|])
    && (|queried| == 1 || |Flatten(queried[..|queried| - 1])| < m)
  }

  /** `takeOpenClaims`: scan `claims` from the front, querying the registry in
      windows of `MaxBatchSize`; take the open claims, drop the claimed ones, and
      return as soon as `amount` claims are taken. `queried` lists the index
      windows whose status was looked up, in order. */
  method TakeOpenClaims(amount: int, claims: seq<ProvenClaim>, claimed: set<nat>)
    returns (taken: seq<ProvenClaim>, remaining: seq<ProvenClaim>, queried: seq<seq<nat>>)
    ensures TakesOpenClaims(amount, claims, claimed, taken, remaining)
    ensures QueriedInWindows(claims, remaining, queried)
  {
    taken := [];
    remaining := claims;
    queried := [];
    ghost var m: nat := 0;
    while true
      invariant m <= |claims| && remaining == claims[m..]
      invariant Scanned(amount, claims, claimed, m, taken)
      invariant FullWindows(claims, queried, m)
      invariant |queried| == 0 ==> m == 0
      invariant |queried| > 0 ==> m < |claims|
      decreases |claims| - m + (if |queried| == 0 then 1 else 0)
    {
      ghost var start := m;
      ghost var before := queried;
      var window := remaining[..Min(MaxBatchSize, |remaining|)];
      var areClaimed := seq(|window|, k requires 0 <= k < |window| => window[k].index in claimed);
      queried := queried + [IndicesOf(window)];
      var reached;
      taken, remaining, reached := TakeFromWindow(amount, claims, claimed, start, window, areClaimed, taken, remaining);
      m := |claims| - |remaining|;
      if reached || |remaining| == 0 {
        TakeDone(amount, claims, claimed, m, taken, remaining, before, start, window, queried);
        return;
      }
      NextWindow(claims, before, start, window, queried);
    }
  }

  /** The `for` loop over one window's statuses: consume the window's claims one
      by one, keeping the open ones, until `amount` claims are taken (`reached`)
      or the window is used up. */
  method TakeFromWindow(amount: int, ghost claims: seq<ProvenClaim>, ghost claimed: set<nat>, ghost start: nat,
                        window: seq<ProvenClaim>, areClaimed: seq<bool>, taken: seq<ProvenClaim>, remaining: seq<ProvenClaim>)
    returns (taken': seq<ProvenClaim>, remaining': seq<ProvenClaim>, reached: bool)
    requires start + |window| <= |claims| && window == claims[start..start + |window|] && remaining == claims[start..]
    requires |areClaimed| == |window| && forall k :: 0 <= k < |window| ==> areClaimed[k] == (window[k].index in claimed)
    requires Scanned(amount, claims, claimed, start, taken)
    ensures |remaining'| <= |claims|
    ensures var m := |claims| - |remaining'|;
      && start <= m <= start + |window|
      && remaining' == claims[m..]
      && (reached ==> start < m && taken' == OpenOf(claims[..m], claimed) && StopsAt(amount, claims, claimed, m))
      && (!reached ==> m == start + |window| && Scanned(amount, claims, claimed, m, taken'))
  {
    taken', remaining' := taken, remaining;
    ghost var m: nat := start;
    var t := 0;
    while t < |areClaimed|
      invariant 0 <= t <= |window| && m == start + t
      invariant remaining' == claims[m..]
      invariant Scanned(amount, claims, claimed, m, taken')
    {
      ghost var previous := taken';
      assert remaining'[0] == window[t] == claims[m];
      if !areClaimed[t] {
        taken' := taken' + [remaining'[0]];
      }
      remaining' := remaining'[1..];
      ScanStep(amount, claims, claimed, m, previous, taken');
      m := m + 1;
      if |taken'| == amount {
        return taken', remaining', true;
      }
      t := t + 1;
    }
    reached := false;
  }

  /** The scan has consumed the first `m` claims: `taken` holds their open
      claims, and the stopping point has not been met among them. */
  ghost predicate Scanned(amount: int, claims: seq<ProvenClaim>, claimed: set<nat>, m: nat, taken: seq<ProvenClaim>)
  {
    && m <= |claims|
    && taken == OpenOf(claims[..m], claimed)
    && forall j :: 1 <= j <= m ==> |OpenOf(claims[..j], claimed)| != amount
  }

  /** Every window queried so far was full and together they cover the first `m` claims. */
  ghost predicate FullWindows(claims: seq<ProvenClaim>, queried: seq<seq<nat>>, m: nat)
  {
    && m <= |claims|
    && Flatten(queried) == IndicesOf(claims[..m])
    && forall k :: 0 <= k < |queried| ==> |queried[k]| == MaxBatchSize
  }

  /** Consuming one more claim: take it if it is open, and stop if the count of
      taken claims reaches `amount`. */
  lemma ScanStep(amount: int, claims: seq<ProvenClaim>, claimed: set<nat>, m: nat, previous: seq<ProvenClaim>, taken: seq<ProvenClaim>)
    requires Scanned(amount, claims, claimed, m, previous) && m < |claims|
    requires taken == previous + (if claims[m].index in claimed then [] else [claims[m]])
    ensures |taken| != amount ==> Scanned(amount, claims, claimed, m + 1, taken)
    ensures |taken| == amount ==> taken == OpenOf(claims[..m + 1], claimed) && StopsAt(amount, claims, claimed, m + 1)
  {
    OpenOfStep(claims, claimed, m);
  }

  /** A full window whose claims were all consumed extends the covered prefix. */
  lemma NextWindow(claims: seq<ProvenClaim>, before: seq<seq<nat>>, start: nat, window: seq<ProvenClaim>, queried: seq<seq<nat>>)
    requires FullWindows(claims, before, start)
    requires start + |window| <= |claims| && window == claims[start..start + |window|]
    requires |window| == MaxBatchSize && queried == before + [IndicesOf(window)]
    ensures FullWindows(claims, queried, start + |window|)
  {
    FlattenAppend(before, IndicesOf(window));
    WindowIndices(claims, start, |window|);
  }

  /** The postcondition of `TakeOpenClaims` at either of its returns. */
  lemma TakeDone(amount: int, claims: seq<ProvenClaim>, claimed: set<nat>, m: nat, taken: seq<ProvenClaim>, remaining: seq<ProvenClaim>,
                 before: seq<seq<nat>>, start: nat, window: seq<ProvenClaim>, queried: seq<seq<nat>>)
    requires m <= |claims| && remaining == claims[m..]
    requires taken == OpenOf(claims[..m], claimed) && StopsAt(amount, claims, claimed, m)
    requires FullWindows(claims, before, start)
    requires start + |window| <= |claims| && window == claims[start..start + |window|] && |window| <= MaxBatchSize
    requires queried == before + [IndicesOf(window)]
    requires m <= start + |window| && (start < m || before == [])
    ensures TakesOpenClaims(amount, claims, claimed, taken, remaining)
    ensures QueriedInWindows(claims, remaining, queried)
  {
    QueriesDone(claims, m, remaining, before, start, window, queried);
  }

  /** The windows queried when the scan stops after `m` claims. */
  lemma QueriesDone(claims: seq<ProvenClaim>, m: nat, remaining: seq<ProvenClaim>,
                    before: seq<seq<nat>>, start: nat, window: seq<ProvenClaim>, queried: seq<seq<nat>>)
    requires m <= |claims| && remaining == claims[m..]
    requires FullWindows(claims, before, start)
    requires start + |window| <= |claims| && window == claims[start..start + |window|] && |window| <= MaxBatchSize
    requires queried == before + [IndicesOf(window)]
    requires m <= start + |window| && (start < m || before == [])
    ensures QueriedInWindows(claims, remaining, queried)
  {
    FlattenAppend(before, IndicesOf(window));
    WindowIndices(claims, start, |window|);
    assert queried[..|queried| - 1] == before;
  }

  /** Appending the indices of the next window extends the queried prefix. */
  lemma WindowIndices(claims: seq<ProvenClaim>, start: nat, size: nat)
    requires start + size <= |claims|
    ensures IndicesOf(claims[..start]) + IndicesOf(claims[start..start + size]) == IndicesOf(claims[..start + size])
  {
  }

  // ---------------------------------------------------------------------------
  // The batch loop of `massClaim`

  function Sum(sizes: seq<int>): int
  {
    if sizes == [] then 0 else Sum(sizes[..|sizes| - 1]) + sizes[|sizes| - 1]
  }

  /** The claiming loop of `massClaim`: while fewer than `amountToClaimFor` claims
      have been counted and the pool is not empty, size a batch as the rest of
      the target capped at `MaxClaimsInBatch`, take that many open claims from
      the pool and send them, fully executed, in one `claimMany`. The registry
      may change between rounds (by this loop's own transactions or by anyone
      else's): round `b` sees `registryAt(b)`. The method returns the accounts
      claimed for, the executed batches and the logged batch sizes; round `b`
      consumed the claims `cuts[b]` to `cuts[b + 1]` of the pool, and `rest` is
      what is left of it. When nothing changes the status of the claims not
      reached yet, the accounts are those of the first `amountToClaimFor` open
      claims of the pool, in pool order. */
  method ClaimInBatches(amountToClaimFor: int, claimsWithProof: seq<ProvenClaim>, registryAt: nat -> set<nat>)
    returns (claimedAccounts: seq<string>, batches: seq<seq<ExecutableClaim>>, batchSizes: seq<int>,
             ghost cuts: seq<nat>, ghost rest: seq<ProvenClaim>)
    ensures Cuts(claimsWithProof, registryAt, rest, batches, cuts) && |batchSizes| == |batches|
    ensures claimedAccounts == AccountsOf(Flatten(batches))
    ensures rest == [] || (amountToClaimFor >= 0 && Sum(batchSizes) == amountToClaimFor)
    ensures amountToClaimFor >= 1 ==> forall b :: 0 <= b < |batches| ==>
      1 <= batchSizes[b] <= MaxClaimsInBatch && |batches[b]| <= batchSizes[b]
    ensures amountToClaimFor >= 0 ==> Sum(batchSizes) <= amountToClaimFor
    ensures amountToClaimFor >= 0 && |batches| > 0 ==> MaxClaimsInBatch * (|batches| - 1) < amountToClaimFor
    ensures amountToClaimFor == 0 ==> batches == []
    ensures amountToClaimFor < 0 ==>
      && rest == [] && |batches| <= 1
      && (claimsWithProof != [] ==> batches == [ExecuteAll(OpenOf(claimsWithProof, registryAt(0)))])
    ensures forall b :: 0 <= b < |batches| ==>
      batchSizes[b] == if amountToClaimFor < 0 then amountToClaimFor else Min(amountToClaimFor - MaxClaimsInBatch * b, MaxClaimsInBatch)
    ensures RoundsStop(claimsWithProof, registryAt, batchSizes, cuts)
    ensures Undisturbed(claimsWithProof, registryAt, cuts) ==>
      var open := OpenOf(claimsWithProof, registryAt(0));
      claimedAccounts == Split.AccountsOf(open[..if amountToClaimFor < 0 then |open| else Min(amountToClaimFor, |open|)])
  {
    var countClaimed := 0;
    claimedAccounts, batches, batchSizes := [], [], [];
    var pool := claimsWithProof;
    cuts := [0];
    RoundsStart(amountToClaimFor, claimsWithProof, registryAt);
    while countClaimed != amountToClaimFor && |pool| != 0
      invariant Rounds(amountToClaimFor, claimsWithProof, registryAt, countClaimed, pool, claimedAccounts, batches, batchSizes, cuts)
      decreases |pool|
    {
      var batchSize := Min(amountToClaimFor - countClaimed, MaxClaimsInBatch);
      NextRound(amountToClaimFor, claimsWithProof, registryAt, countClaimed, pool, claimedAccounts, batches, batchSizes, cuts, batchSize);
      var taken, queried;
      taken, pool, queried := TakeOpenClaims(batchSize, pool, registryAt(|batches|));
      countClaimed := countClaimed + batchSize;
      claimedAccounts := claimedAccounts + Split.AccountsOf(taken);
      batches := batches + [ExecuteAll(taken)];
      batchSizes := batchSizes + [batchSize];
      cuts := cuts + [|claimsWithProof| - |pool|];
    }
    rest := pool;
    RoundsDone(amountToClaimFor, claimsWithProof, registryAt, countClaimed, pool, claimedAccounts, batches, batchSizes, cuts);
    if Undisturbed(claimsWithProof, registryAt, cuts) {
      ClaimsFirstOpenClaims(amountToClaimFor, claimsWithProof, registryAt, claimedAccounts, batches, batchSizes, cuts, rest);
    }
  }

  /** Before the first round nothing is counted, claimed or cut. */
  lemma RoundsStart(amountToClaimFor: int, claimsWithProof: seq<ProvenClaim>, registryAt: nat -> set<nat>)
    ensures Rounds(amountToClaimFor, claimsWithProof, registryAt, 0, claimsWithProof, [], [], [], [0])
  {
    assert claimsWithProof[0..] == claimsWithProof;
  }

  /** The state of the claiming loop after `|batches|` rounds. */
  ghost predicate Rounds(amountToClaimFor: int, claimsWithProof: seq<ProvenClaim>, registryAt: nat -> set<nat>, countClaimed: int,
                  pool: seq<ProvenClaim>, claimedAccounts: seq<string>, batches: seq<seq<ExecutableClaim>>,
                  batchSizes: seq<int>, cuts: seq<nat>)
  {
    && Cuts(claimsWithProof, registryAt, pool, batches, cuts)
    && claimedAccounts == AccountsOf(Flatten(batches))
    && Counted(amountToClaimFor, countClaimed, batches, batchSizes)
    && (amountToClaimFor < 0 ==> NegativeRounds(claimsWithProof, registryAt, pool, batches))
    && Sized(amountToClaimFor, claimsWithProof, registryAt, batchSizes, cuts)
  }

  /** A round that starts at `from` in the pool and is given `amount` stops at
      `to`, where `takeOpenClaims` stops on the rest of the pool. */
  ghost predicate RoundStops(amount: int, claimsWithProof: seq<ProvenClaim>, claimed: set<nat>, from: nat, to: nat)
  {
    from <= to <= |claimsWithProof| && StopsAt(amount, claimsWithProof[from..], claimed, to - from)
  }

  /** Every round was sized as the rest of the target capped at
      `MaxClaimsInBatch`, and stopped where `takeOpenClaims` stops. */
  ghost predicate Sized(amountToClaimFor: int, claimsWithProof: seq<ProvenClaim>, registryAt: nat -> set<nat>,
                        batchSizes: seq<int>, cuts: seq<nat>)
  {
    SizesFollowTarget(amountToClaimFor, batchSizes) && RoundsStop(claimsWithProof, registryAt, batchSizes, cuts)
  }

  /** Round `b` was given the rest of the target after `b` full rounds, capped
      at `MaxClaimsInBatch`; a negative target is never reached, and its only
      round is given the target itself. */
  ghost predicate SizesFollowTarget(amountToClaimFor: int, batchSizes: seq<int>)
  {
    forall b :: 0 <= b < |batchSizes| ==>
      batchSizes[b] == if amountToClaimFor < 0 then amountToClaimFor else Min(amountToClaimFor - MaxClaimsInBatch * b, MaxClaimsInBatch)
  }

  /** Round `b` stopped where `takeOpenClaims` stops on what was left of the pool. */
  ghost predicate RoundsStop(claimsWithProof: seq<ProvenClaim>, registryAt: nat -> set<nat>, batchSizes: seq<int>, cuts: seq<nat>)
  {
    && |cuts| == |batchSizes| + 1
    && forall b :: 0 <= b < |batchSizes| ==> RoundStops(batchSizes[b], claimsWithProof, registryAt(b), cuts[b], cuts[b + 1])
  }

  /** A round sized from the counted total keeps every round sized. */
  lemma SizeStep(amountToClaimFor: int, countClaimed: int, batches: seq<seq<ExecutableClaim>>, batchSizes: seq<int>, batchSize: int)
    requires SizesFollowTarget(amountToClaimFor, batchSizes)
    requires Counted(amountToClaimFor, countClaimed, batches, batchSizes) && countClaimed != amountToClaimFor
    requires amountToClaimFor < 0 ==> batches == []
    requires batchSize == Min(amountToClaimFor - countClaimed, MaxClaimsInBatch)
    ensures SizesFollowTarget(amountToClaimFor, batchSizes + [batchSize])
  {
    if amountToClaimFor >= 0 {
      assert countClaimed == MaxClaimsInBatch * |batchSizes|;
    }
    var batchSizes' := batchSizes + [batchSize];
    assert forall b :: 0 <= b < |batchSizes| ==> batchSizes'[b] == batchSizes[b];
  }

  /** A round that stops where `takeOpenClaims` stops on the rest of the pool
      keeps every round stopped. */
  lemma StopStep(claimsWithProof: seq<ProvenClaim>, registryAt: nat -> set<nat>, pool: seq<ProvenClaim>,
                 batchSizes: seq<int>, cuts: seq<nat>, batchSize: int, remaining: seq<ProvenClaim>)
    requires RoundsStop(claimsWithProof, registryAt, batchSizes, cuts)
    requires cuts[|batchSizes|] + |pool| == |claimsWithProof| && pool == claimsWithProof[cuts[|batchSizes|]..]
    requires |remaining| <= |pool| && StopsAt(batchSize, pool, registryAt(|batchSizes|), |pool| - |remaining|)
    ensures RoundsStop(claimsWithProof, registryAt, batchSizes + [batchSize], cuts + [|claimsWithProof| - |remaining|])
  {
    var batchSizes' := batchSizes + [batchSize];
    var cuts' := cuts + [|claimsWithProof| - |remaining|];
    forall b | 0 <= b < |batchSizes'|
      ensures RoundStops(batchSizes'[b], claimsWithProof, registryAt(b), cuts'[b], cuts'[b + 1])
    {
      if b < |batchSizes| {
        assert batchSizes'[b] == batchSizes[b] && cuts'[b] == cuts[b] && cuts'[b + 1] == cuts[b + 1];
      } else {
        assert cuts'[b] == cuts[|batchSizes|] && cuts'[b + 1] == |claimsWithProof| - |remaining|;
      }
    }
  }

  /** Round `b` consumed the pool from `cuts[b]` to `cuts[b + 1]` and sent the open
      claims among them; `pool` is what is left after the last cut. */
  ghost predicate Cuts(claimsWithProof: seq<ProvenClaim>, registryAt: nat -> set<nat>, pool: seq<ProvenClaim>,
                       batches: seq<seq<ExecutableClaim>>, cuts: seq<nat>)
  {
    && |cuts| == |batches| + 1
    && cuts[0] == 0 && (forall b :: 0 <= b < |batches| ==> cuts[b] < cuts[b + 1])
    && (forall b :: 0 <= b <= |batches| ==> cuts[b] <= |claimsWithProof|)
    && cuts[|batches|] + |pool| == |claimsWithProof| && pool == claimsWithProof[cuts[|batches|]..]
    && (forall b :: 0 <= b < |batches| ==>
          batches[b] == ExecuteAll(OpenOf(claimsWithProof[cuts[b]..cuts[b + 1]], registryAt(b))))
  }

  /** The counted total and the logged batch sizes. */
  ghost predicate Counted(amountToClaimFor: int, countClaimed: int, batches: seq<seq<ExecutableClaim>>, batchSizes: seq<int>)
  {
    && |batchSizes| == |batches|
    && countClaimed == Sum(batchSizes)
    && (amountToClaimFor >= 0 ==> countClaimed == Min(MaxClaimsInBatch * |batches|, amountToClaimFor))
    && (amountToClaimFor >= 1 ==> forall b :: 0 <= b < |batches| ==>
          1 <= batchSizes[b] <= MaxClaimsInBatch && |batches[b]| <= batchSizes[b])
    && (amountToClaimFor >= 0 && |batches| > 0 ==> MaxClaimsInBatch * (|batches| - 1) < amountToClaimFor)
  }

  /** With a negative target the loop runs once, on the whole pool. */
  ghost predicate NegativeRounds(claimsWithProof: seq<ProvenClaim>, registryAt: nat -> set<nat>, pool: seq<ProvenClaim>,
                                 batches: seq<seq<ExecutableClaim>>)
  {
    || (batches == [] && pool == claimsWithProof)
    || (pool == [] && batches == [ExecuteAll(OpenOf(claimsWithProof, registryAt(0)))])
  }

  /** One round of the claiming loop keeps its state, whatever the round takes
      from the pool. */
  lemma NextRound(amountToClaimFor: int, claimsWithProof: seq<ProvenClaim>, registryAt: nat -> set<nat>, countClaimed: int,
                  pool: seq<ProvenClaim>, claimedAccounts: seq<string>, batches: seq<seq<ExecutableClaim>>,
                  batchSizes: seq<int>, cuts: seq<nat>, batchSize: int)
    requires Rounds(amountToClaimFor, claimsWithProof, registryAt, countClaimed, pool, claimedAccounts, batches, batchSizes, cuts)
    requires countClaimed != amountToClaimFor && pool != []
    requires batchSize == Min(amountToClaimFor - countClaimed, MaxClaimsInBatch)
    ensures forall taken, remaining :: TakesOpenClaims(batchSize, pool, registryAt(|batches|), taken, remaining) ==>
      && |remaining| < |pool|
      && Rounds(amountToClaimFor, claimsWithProof, registryAt, countClaimed + batchSize, remaining,
                claimedAccounts + Split.AccountsOf(taken), batches + [ExecuteAll(taken)], batchSizes + [batchSize],
                cuts + [|claimsWithProof| - |remaining|])
  {
    forall taken, remaining | TakesOpenClaims(batchSize, pool, registryAt(|batches|), taken, remaining)
      ensures |remaining| < |pool|
      ensures Rounds(amountToClaimFor, claimsWithProof, registryAt, countClaimed + batchSize, remaining,
                claimedAccounts + Split.AccountsOf(taken), batches + [ExecuteAll(taken)], batchSizes + [batchSize],
                cuts + [|claimsWithProof| - |remaining|])
    {
      BatchTaken(batchSize, pool, registryAt(|batches|), taken, remaining);
      CutStep(claimsWithProof, registryAt, pool, batches, cuts, taken, remaining);
      AccountsAppend(batches, ExecuteAll(taken));
      CountStep(amountToClaimFor, countClaimed, batches, batchSizes, batchSize, ExecuteAll(taken));
      SizeStep(amountToClaimFor, countClaimed, batches, batchSizes, batchSize);
      StopStep(claimsWithProof, registryAt, pool, batchSizes, cuts, batchSize, remaining);
      if amountToClaimFor < 0 {
        assert batches == [] && pool == claimsWithProof;
      }
    }
  }

  lemma CutStep(claimsWithProof: seq<ProvenClaim>, registryAt: nat -> set<nat>, pool: seq<ProvenClaim>,
                batches: seq<seq<ExecutableClaim>>, cuts: seq<nat>, taken: seq<ProvenClaim>, remaining: seq<ProvenClaim>)
    requires Cuts(claimsWithProof, registryAt, pool, batches, cuts)
    requires |remaining| < |pool| && remaining == pool[|pool| - |remaining|..]
    requires taken == OpenOf(pool[..|pool| - |remaining|], registryAt(|batches|))
    ensures Cuts(claimsWithProof, registryAt, remaining, batches + [ExecuteAll(taken)], cuts + [|claimsWithProof| - |remaining|])
  {
    var start := cuts[|batches|];
    assert pool[..|pool| - |remaining|] == claimsWithProof[start..|claimsWithProof| - |remaining|];
    assert remaining == claimsWithProof[|claimsWithProof| - |remaining|..];
    var batches' := batches + [ExecuteAll(taken)];
    var cuts' := cuts + [|claimsWithProof| - |remaining|];
    assert forall b :: 0 <= b < |batches| ==> batches'[b] == batches[b];
    assert forall b :: 0 <= b <= |batches| ==> cuts'[b] == cuts[b];
  }

  lemma CountStep(amountToClaimFor: int, countClaimed: int, batches: seq<seq<ExecutableClaim>>, batchSizes: seq<int>,
                  batchSize: int, batch: seq<ExecutableClaim>)
    requires Counted(amountToClaimFor, countClaimed, batches, batchSizes)
    requires countClaimed != amountToClaimFor
    requires batchSize == Min(amountToClaimFor - countClaimed, MaxClaimsInBatch)
    requires batchSize >= 1 ==> |batch| <= batchSize
    ensures Counted(amountToClaimFor, countClaimed + batchSize, batches + [batch], batchSizes + [batchSize])
  {
    var batches' := batches + [batch];
    var batchSizes' := batchSizes + [batchSize];
    assert batchSizes'[..|batchSizes|] == batchSizes;
    assert forall b :: 0 <= b < |batches| ==> batches'[b] == batches[b] && batchSizes'[b] == batchSizes[b];
    if amountToClaimFor >= 0 {
      assert MaxClaimsInBatch * (|batches'| - 1) == MaxClaimsInBatch * |batches|;
    }
  }

  /** When the loop stops, its state gives the postcondition of `ClaimInBatches`. */
  lemma RoundsDone(amountToClaimFor: int, claimsWithProof: seq<ProvenClaim>, registryAt: nat -> set<nat>, countClaimed: int,
                  rest: seq<ProvenClaim>, claimedAccounts: seq<string>, batches: seq<seq<ExecutableClaim>>,
                  batchSizes: seq<int>, cuts: seq<nat>)
    requires Rounds(amountToClaimFor, claimsWithProof, registryAt, countClaimed, rest, claimedAccounts, batches, batchSizes, cuts)
    requires countClaimed == amountToClaimFor || rest == []
    ensures Cuts(claimsWithProof, registryAt, rest, batches, cuts) && |batchSizes| == |batches|
    ensures claimedAccounts == AccountsOf(Flatten(batches))
    ensures rest == [] || (amountToClaimFor >= 0 && Sum(batchSizes) == amountToClaimFor)
    ensures amountToClaimFor >= 1 ==> forall b :: 0 <= b < |batches| ==>
      1 <= batchSizes[b] <= MaxClaimsInBatch && |batches[b]| <= batchSizes[b]
    ensures amountToClaimFor >= 0 ==> Sum(batchSizes) <= amountToClaimFor
    ensures amountToClaimFor >= 0 && |batches| > 0 ==> MaxClaimsInBatch * (|batches| - 1) < amountToClaimFor
    ensures amountToClaimFor == 0 ==> batches == []
    ensures amountToClaimFor < 0 ==>
      && rest == [] && |batches| <= 1
      && (claimsWithProof != [] ==> batches == [ExecuteAll(OpenOf(claimsWithProof, registryAt(0)))])
    ensures forall b :: 0 <= b < |batches| ==>
      batchSizes[b] == if amountToClaimFor < 0 then amountToClaimFor else Min(amountToClaimFor - MaxClaimsInBatch * b, MaxClaimsInBatch)
    ensures RoundsStop(claimsWithProof, registryAt, batchSizes, cuts)
  {
    if amountToClaimFor < 0 && batches == [] {
      assert countClaimed == 0;
    }
  }

  /** However the batches fall, the loop never claims for more than it counts. */
  lemma {:induction false} ClaimsWithinCount(batches: seq<seq<ExecutableClaim>>, batchSizes: seq<int>)
    requires |batchSizes| == |batches| && forall b :: 0 <= b < |batches| ==> |batches[b]| <= batchSizes[b]
    ensures |Flatten(batches)| <= Sum(batchSizes)
  {
    if batches != [] {
      var k := |batches| - 1;
      ClaimsWithinCount(batches[..k], batchSizes[..k]);
    }
  }

  /** What one round of the loop takes from the pool. */
  lemma BatchTaken(batchSize: int, pool: seq<ProvenClaim>, claimed: set<nat>, taken: seq<ProvenClaim>, remaining: seq<ProvenClaim>)
    requires TakesOpenClaims(batchSize, pool, claimed, taken, remaining)
    ensures pool[..|pool| - |remaining|] + remaining == pool
    ensures taken == OpenOf(pool[..|pool| - |remaining|], claimed)
    ensures pool != [] ==> |remaining| < |pool|
    ensures batchSize >= 1 ==> |taken| <= batchSize
    ensures batchSize < 0 ==> remaining == [] && taken == OpenOf(pool, claimed)
  {
    var m := |pool| - |remaining|;
    assert pool[..m] + pool[m..] == pool;
    if batchSize >= 1 {
      TakeBounds(batchSize, pool, claimed, m);
    }
    if batchSize < 0 {
      NegativeAmountTakesAll(batchSize, pool, claimed, m);
    }
  }

  lemma AccountsAppend(batches: seq<seq<ExecutableClaim>>, batch: seq<ExecutableClaim>)
    ensures AccountsOf(Flatten(batches + [batch])) == AccountsOf(Flatten(batches)) + AccountsOf(batch)
  {
    FlattenAppend(batches, batch);
  }

  /** The loop runs at most `ceil(amountToClaimFor / MaxClaimsInBatch)` rounds. */
  lemma RoundsBound(amountToClaimFor: nat, rounds: nat)
    requires rounds > 0 ==> MaxClaimsInBatch * (rounds - 1) < amountToClaimFor
    ensures rounds <= CeilDiv(amountToClaimFor, MaxClaimsInBatch)
  {
    var c := CeilDiv(amountToClaimFor, MaxClaimsInBatch);
    CeilDivChar(amountToClaimFor, MaxClaimsInBatch, c);
    if rounds > c {
      MulMonotone(c, rounds - 1, MaxClaimsInBatch);
    }
  }

  // ---------------------------------------------------------------------------
  // Which claims the loop claims for

  /** Two registry states agree on whether each claim of `claims` is claimed. */
  ghost predicate AgreeOn(claims: seq<ProvenClaim>, claimed: set<nat>, claimed': set<nat>)
  {
    forall i :: 0 <= i < |claims| ==> (claims[i].index in claimed <==> claims[i].index in claimed')
  }

  /** When round `b` starts, the registry still has the status it had before
      the first round for every claim the loop has not reached yet. */
  ghost predicate Undisturbed(claimsWithProof: seq<ProvenClaim>, registryAt: nat -> set<nat>, cuts: seq<nat>)
  {
    forall b, i :: 0 <= b < |cuts| - 1 && cuts[b] <= i < |claimsWithProof| ==>
      (claimsWithProof[i].index in registryAt(b) <==> claimsWithProof[i].index in registryAt(0))
  }

  /** Registry states that agree on a stretch of the pool leave the same claims of it open. */
  lemma OpenOfAgree(claims: seq<ProvenClaim>, claimed: set<nat>, claimed': set<nat>)
    requires AgreeOn(claims, claimed, claimed')
    ensures OpenOf(claims, claimed) == OpenOf(claims, claimed')
  {
    FilterAgree(claims, IsOpen(claimed), IsOpen(claimed'));
  }

  /** The open claims of two stretches of the pool, one after the other. */
  lemma OpenOfAppend(front: seq<ProvenClaim>, back: seq<ProvenClaim>, claimed: set<nat>)
    ensures OpenOf(front + back, claimed) == OpenOf(front, claimed) + OpenOf(back, claimed)
  {
    FilterAppend(front, back, IsOpen(claimed));
  }

  lemma ExecuteAllAppend(front: seq<ProvenClaim>, back: seq<ProvenClaim>)
    ensures ExecuteAll(front + back) == ExecuteAll(front) + ExecuteAll(back)
  {
  }

  /** Executing claims keeps their accounts. */
  lemma ExecutedAccounts(claims: seq<ProvenClaim>)
    ensures AccountsOf(ExecuteAll(claims)) == Split.AccountsOf(claims)
  {
  }

  /** The batches of the first `n` rounds are the open claims, in the state the
      registry had before the first round, of the pool up to the `n`-th cut. */
  lemma {:induction false} RoundsPrefix(claimsWithProof: seq<ProvenClaim>, registryAt: nat -> set<nat>, rest: seq<ProvenClaim>,
                                        batches: seq<seq<ExecutableClaim>>, cuts: seq<nat>, n: nat)
    requires Cuts(claimsWithProof, registryAt, rest, batches, cuts) && n <= |batches|
    requires Undisturbed(claimsWithProof, registryAt, cuts)
    ensures Flatten(batches[..n]) == ExecuteAll(OpenOf(claimsWithProof[..cuts[n]], registryAt(0)))
  {
    if n == 0 {
      assert claimsWithProof[..cuts[0]] == [];
    } else {
      var b := n - 1;
      RoundsPrefix(claimsWithProof, registryAt, rest, batches, cuts, b);
      assert batches[..n] == batches[..b] + [batches[b]];
      FlattenAppend(batches[..b], batches[b]);
      var round := claimsWithProof[cuts[b]..cuts[n]];
      assert AgreeOn(round, registryAt(b), registryAt(0)) by {
        forall i | 0 <= i < |round|
          ensures round[i].index in registryAt(b) <==> round[i].index in registryAt(0)
        {
          assert round[i] == claimsWithProof[cuts[b] + i];
        }
      }
      OpenOfAgree(round, registryAt(b), registryAt(0));
      assert claimsWithProof[..cuts[n]] == claimsWithProof[..cuts[b]] + round;
      OpenOfAppend(claimsWithProof[..cuts[b]], round, registryAt(0));
      ExecuteAllAppend(OpenOf(claimsWithProof[..cuts[b]], registryAt(0)), OpenOf(round, registryAt(0)));
    }
  }

  /** A round that stopped before the end of the pool found as many open claims
      as it was given. */
  lemma RoundFilled(batchSize: int, claimsWithProof: seq<ProvenClaim>, claimed: set<nat>, from: nat, to: nat)
    requires RoundStops(batchSize, claimsWithProof, claimed, from, to) && to < |claimsWithProof|
    ensures |OpenOf(claimsWithProof[from..to], claimed)| == batchSize
  {
    assert claimsWithProof[from..][..to - from] == claimsWithProof[from..to];
  }

  /** Batches that each hold their logged size hold the logged total. */
  lemma {:induction false} ClaimsMatchCount(batches: seq<seq<ExecutableClaim>>, batchSizes: seq<int>)
    requires |batchSizes| == |batches| && forall b :: 0 <= b < |batches| ==> |batches[b]| == batchSizes[b]
    ensures |Flatten(batches)| == Sum(batchSizes)
  {
    if batches != [] {
      var k := |batches| - 1;
      ClaimsMatchCount(batches[..k], batchSizes[..k]);
    }
  }

  /** When nothing but the loop's own rounds changes the registry's status of the
      claims not yet reached (claim indices are unique, so a round only marks
      claims it consumed), the loop claims for the first `amountToClaimFor` open
      claims of the pool, in pool order, or for all of them if there are fewer
      or the target is negative. */
  lemma ClaimsFirstOpenClaims(amountToClaimFor: int, claimsWithProof: seq<ProvenClaim>, registryAt: nat -> set<nat>,
                              claimedAccounts: seq<string>, batches: seq<seq<ExecutableClaim>>, batchSizes: seq<int>,
                              cuts: seq<nat>, rest: seq<ProvenClaim>)
    requires Cuts(claimsWithProof, registryAt, rest, batches, cuts)
    requires RoundsStop(claimsWithProof, registryAt, batchSizes, cuts)
    requires claimedAccounts == AccountsOf(Flatten(batches))
    requires rest == [] || (amountToClaimFor >= 0 && Sum(batchSizes) == amountToClaimFor)
    requires amountToClaimFor >= 1 ==> forall b :: 0 <= b < |batches| ==> |batches[b]| <= batchSizes[b]
    requires amountToClaimFor >= 0 ==> Sum(batchSizes) <= amountToClaimFor
    requires amountToClaimFor == 0 ==> batches == []
    requires Undisturbed(claimsWithProof, registryAt, cuts)
    ensures var open := OpenOf(claimsWithProof, registryAt(0));
            var k := if amountToClaimFor < 0 then |open| else Min(amountToClaimFor, |open|);
            && Flatten(batches) == ExecuteAll(open[..k])
            && claimedAccounts == Split.AccountsOf(open[..k])
  {
    var n := |batches|;
    var open := OpenOf(claimsWithProof, registryAt(0));
    var k := if amountToClaimFor < 0 then |open| else Min(amountToClaimFor, |open|);
    RoundsPrefix(claimsWithProof, registryAt, rest, batches, cuts, n);
    assert batches[..n] == batches;
    var reached := OpenOf(claimsWithProof[..cuts[n]], registryAt(0));
    assert claimsWithProof == claimsWithProof[..cuts[n]] + rest;
    OpenOfAppend(claimsWithProof[..cuts[n]], rest, registryAt(0));
    if rest == [] {
      assert open == reached;
      if amountToClaimFor >= 1 {
        ClaimsWithinCount(batches, batchSizes);
      }
    } else {
      forall b | 0 <= b < n
        ensures |batches[b]| == batchSizes[b]
      {
        if b + 1 < n {
          assert cuts[b + 1] < cuts[b + 2] <= |claimsWithProof|;
        }
        RoundFilled(batchSizes[b], claimsWithProof, registryAt(b), cuts[b], cuts[b + 1]);
      }
      ClaimsMatchCount(batches, batchSizes);
    }
    assert open[..k] == reached;
    ExecutedAccounts(open[..k]);
  }
}
