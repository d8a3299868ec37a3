/** The distribution splitter (src/ts/split.ts): the accounts of a list of
    proven claims are listed once each in lower-case order, each account's
    claims are serialised, and the account list is cut into windows of
    `desiredCohortSize` accounts. Each window is a chunk keyed by its first
    account, and a routing map sends that first account to the window's last. */
module Split {
  import opened Wrappers
  import opened Seqs
  import opened Arith
  import opened Claims
  import opened AddressOrder

  /** A proven claim as written to the chunk files. */
  datatype StringifiedProvenClaim = StringifiedProvenClaim(
    typeLabel: string,
    amount: string,
    index: nat,
    proof: seq<string>)

  type ClaimChunk = map<string, seq<StringifiedProvenClaim>>

  datatype SplitClaims = SplitClaims(
    addressChunks: map<string, string>,
    claimChunks: map<string, ClaimChunk>)

  /** The cohort size used when the caller gives none. */
  const DefaultCohortSize: nat := 70

  /** The record of one claim in a chunk: its proof and index unchanged, the
      claim type by name and the amount in decimal. */
  function Stringify(c: ProvenClaim): StringifiedProvenClaim
  {
    StringifiedProvenClaim(TypeLabel(c.claimType), Decimal(c.claimableAmount), c.index, c.proof)
  }

  /** Reads a chunk record back into a proven claim of the given account. */
  function Destringify(account: string, s: StringifiedProvenClaim): Option<ProvenClaim>
  {
    match ParseTypeLabel(s.typeLabel)
    case None => None
    case Some(t) =>
      if AllDigits(s.amount) then Some(ProvenClaim(account, t, DecimalValue(s.amount), s.index, s.proof))
      else None
  }

  /** No information about a claim except its account is lost in a chunk record. */
  lemma StringifyRoundTrip(c: ProvenClaim)
    ensures Destringify(c.account, Stringify(c)) == Some(c)
  {
    TypeLabelRoundTrip(c.claimType);
    DecimalRoundTrip(c.claimableAmount);
  }

  function StringifyAll(cs: seq<ProvenClaim>): (r: seq<StringifiedProvenClaim>)
    ensures |r| == |cs| && forall k :: 0 <= k < |cs| ==> r[k] == Stringify(cs[k])
  {
    seq(|cs|, k requires 0 <= k < |cs| => Stringify(cs[k]))
  }

  function AccountsOf(claims: seq<ProvenClaim>): (r: seq<string>)
    ensures |r| == |claims| && forall k :: 0 <= k < |claims| ==> r[k] == claims[k].account
  {
    seq(|claims|, k requires 0 <= k < |claims| => claims[k].account)
  }

  /** Keeps the elements at the positions where they occur for the first time
      (`findIndex(a => a === x) === i`), in order. */
  function FirstOccurrences(s: seq<string>): (r: seq<string>)
    ensures NoDup(r)
    ensures forall x :: x in r <==> x in s
  {
    if |s| == 0 then []
    else
      var init := FirstOccurrences(s[..|s| - 1]);
      assert forall x :: x in s <==> x in s[..|s| - 1] || x == s[|s| - 1] by {
        assert s == s[..|s| - 1] + [s[|s| - 1]];
      }
      if s[|s| - 1] in s[..|s| - 1] then init else init + [s[|s| - 1]]
  }

  /** `sortedAddresses`: each account once, in lower-case order. */
  function SortedAddresses(claims: seq<ProvenClaim>): seq<string>
  {
    SortByLower(FirstOccurrences(AccountsOf(claims)))
  }

  /** The account list holds every account of the claims exactly once, in an
      order without inversions; strictly ordered when no two accounts differ
      only in case. */
  lemma SortedAddressesProperties(claims: seq<ProvenClaim>)
    ensures var sorted := SortedAddresses(claims);
      && NoDup(sorted)
      && (forall a :: a in sorted <==> exists c :: c in claims && c.account == a)
      && SortedByLower(sorted)
      && (CaseDistinct(AccountsOf(claims)) ==> StrictlySortedByLower(sorted))
  {
    var accounts := AccountsOf(claims);
    var distinct := FirstOccurrences(accounts);
    var sorted := SortByLower(distinct);
    SortByLowerCorrect(distinct);
    PermutationNoDup(distinct, sorted);
    forall a ensures a in sorted <==> exists c :: c in claims && c.account == a {
      assert a in sorted <==> a in multiset(distinct);
      if a in accounts {
        var k :| 0 <= k < |accounts| && accounts[k] == a;
        assert claims[k] in claims;
      }
      if exists c :: c in claims && c.account == a {
        var c :| c in claims && c.account == a;
        var k :| 0 <= k < |claims| && claims[k] == c;
        assert accounts[k] == a;
      }
    }
    if CaseDistinct(accounts) {
      assert CaseDistinct(distinct) by {
        forall i, j | 0 <= i < |distinct| && 0 <= j < |distinct| && distinct[i] != distinct[j]
          ensures Lower(distinct[i]) != Lower(distinct[j])
        {
          assert distinct[i] in accounts && distinct[j] in accounts;
        }
      }
      SortStrictWhenCaseDistinct(distinct);
    }
  }

  /** The claims of one account, in input order (`claims.filter(({account}) => account === user)`). */
  function ClaimsOfAccount(claims: seq<ProvenClaim>, user: string): (r: seq<ProvenClaim>)
    ensures forall c :: c in r <==> c in claims && c.account == user
    ensures forall c :: multiset(r)[c] == if c.account == user then multiset(claims)[c] else 0
  {
    if |claims| == 0 then []
    else
      var last := claims[|claims| - 1];
      assert claims == claims[..|claims| - 1] + [last];
      ClaimsOfAccount(claims[..|claims| - 1], user) + (if last.account == user then [last] else [])
  }

  /** The claims of an account are the claims that pass the filter `account === user`. */
  lemma {:induction false} ClaimsOfAccountFilters(claims: seq<ProvenClaim>, user: string)
    ensures ClaimsOfAccount(claims, user) == Filter(claims, (c: ProvenClaim) => c.account == user)
  {
    if claims != [] {
      ClaimsOfAccountFilters(claims[..|claims| - 1], user);
    }
  }

  /** `claimsByAddress[user]`. */
  function Entry(claims: seq<ProvenClaim>, user: string): seq<StringifiedProvenClaim>
  {
    StringifyAll(ClaimsOfAccount(claims, user))
  }

  /** The claim file of one window of accounts. */
  function ChunkOf(window: seq<string>, claims: seq<ProvenClaim>): ClaimChunk
  {
    map a | a in window :: Entry(claims, a)
  }

  /** How many windows of `w` accounts the `n` sorted accounts fill. */
  function NumChunks(n: nat, w: nat): nat
    requires w >= 1
  {
    CeilDiv(n, w)
  }

  /** Position of the first account of window `k`: `k` steps of `i += w`. */
  function ChunkStart(k: nat, w: nat): nat
  {
    if k == 0 then 0 else ChunkStart(k - 1, w) + w
  }

  lemma {:induction false} ChunkStartIsProduct(k: nat, w: nat)
    ensures ChunkStart(k, w) == k * w
  {
    if k > 0 {
      ChunkStartIsProduct(k - 1, w);
      assert (k - 1) * w + w == k * w;
    }
  }

  /** `lastIndex`: position of the last account of the window starting at `s`. */
  function LastIndex(n: nat, w: nat, s: nat): nat
    requires s < n && w >= 1
  {
    Min(s + w - 1, n - 1)
  }

  /** `r` cuts the account list `sorted` into windows of `w` accounts: one
      routing entry and one chunk per window, keyed by the window's first
      account, the windows covering the whole list, and nothing else. */
  ghost predicate ChunkedAs(sorted: seq<string>, w: nat, claims: seq<ProvenClaim>, r: SplitClaims)
    requires w >= 1
  {
    var count := |r.addressChunks|;
    && FirstWindows(sorted, w, claims, r, count)
    && |sorted| <= ChunkStart(count, w)
    && r.addressChunks.Keys == FirstAccounts(sorted, w, count)
    && r.claimChunks.Keys == FirstAccounts(sorted, w, count)
  }

  /** `r` holds the routing entries and chunks of windows `0 .. k - 1`, and
      keys nothing but their first accounts. */
  ghost predicate FirstWindows(sorted: seq<string>, w: nat, claims: seq<ProvenClaim>, r: SplitClaims, k: nat)
    requires w >= 1
  {
    && (k > 0 ==> ChunkStart(k - 1, w) < |sorted|)
    && (forall f :: f in r.addressChunks ==> f in FirstAccounts(sorted, w, k))
    && (forall f :: f in r.claimChunks ==> f in FirstAccounts(sorted, w, k))
    && (forall j :: 0 <= j < k ==> WindowAt(sorted, w, claims, r, j))
  }

  /** The first accounts of windows `0 .. k - 1`. */
  function FirstAccounts(sorted: seq<string>, w: nat, k: nat): set<string>
    requires k > 0 ==> ChunkStart(k - 1, w) < |sorted|
  {
    if k == 0 then {} else FirstAccounts(sorted, w, k - 1) + {sorted[ChunkStart(k - 1, w)]}
  }

  /** Window `k` starts inside the list, its first account keys a routing
      entry to its last account and a chunk holding exactly its accounts. */
  ghost predicate WindowAt(sorted: seq<string>, w: nat, claims: seq<ProvenClaim>, r: SplitClaims, k: nat)
    requires w >= 1
  {
    var n := |sorted|;
    && ChunkStart(k, w) < n
    && var s := ChunkStart(k, w);
       && sorted[s] in r.addressChunks
       && r.addressChunks[sorted[s]] == sorted[LastIndex(n, w, s)]
       && sorted[s] in r.claimChunks
       && r.claimChunks[sorted[s]] == ChunkOf(sorted[s..LastIndex(n, w, s) + 1], claims)
  }

  /** The result of splitting `claims` into windows of `w` accounts. */
  ghost predicate IsSplitOf(claims: seq<ProvenClaim>, w: nat, r: SplitClaims)
    requires w >= 1
  {
    ChunkedAs(SortedAddresses(claims), w, claims, r)
  }

  lemma {:induction false} StartsIncrease(j: nat, k: nat, w: nat)
    requires j < k && w >= 1
    ensures ChunkStart(j, w) + w <= ChunkStart(k, w)
  {
    if j < k - 1 {
      StartsIncrease(j, k - 1, w);
    }
  }

  /** `splitClaims`. The loop over windows ends only when the cohort size is
      positive or there is no account at all. */
  method SplitClaimsOf(claims: seq<ProvenClaim>, desiredCohortSize: int) returns (r: SplitClaims)
    requires desiredCohortSize >= 1 || claims == []
    ensures desiredCohortSize >= 1 ==> IsSplitOf(claims, desiredCohortSize, r)
    ensures claims == [] ==> r.addressChunks == map[] && r.claimChunks == map[]
  {
    var sortedAddresses := SortedAddresses(claims);
    SortedAddressesProperties(claims);
    assert claims == [] ==> sortedAddresses == [];
    var claimsByAddress := GroupByAccount(claims, sortedAddresses);
    r := CutIntoChunks(claims, sortedAddresses, claimsByAddress, desiredCohortSize);
  }

  /** `splitClaims` called without a cohort size: windows of 70 accounts. */
  method SplitClaimsDefault(claims: seq<ProvenClaim>) returns (r: SplitClaims)
    ensures IsSplitOf(claims, DefaultCohortSize, r)
  {
    r := SplitClaimsOf(claims, DefaultCohortSize);
  }

  /** The loop filling `claimsByAddress`. */
  method GroupByAccount(claims: seq<ProvenClaim>, sortedAddresses: seq<string>)
    returns (claimsByAddress: map<string, seq<StringifiedProvenClaim>>)
    ensures forall a :: a in claimsByAddress <==> a in sortedAddresses
    ensures forall a :: a in claimsByAddress ==> claimsByAddress[a] == Entry(claims, a)
  {
    claimsByAddress := map[];
    for u := 0 to |sortedAddresses|
      invariant forall a :: a in claimsByAddress <==> a in sortedAddresses[..u]
      invariant forall a :: a in claimsByAddress ==> claimsByAddress[a] == Entry(claims, a)
    {
      var user := sortedAddresses[u];
      assert sortedAddresses[..u + 1] == sortedAddresses[..u] + [user];
      claimsByAddress := claimsByAddress[user := Entry(claims, user)];
    }
    assert sortedAddresses[..|sortedAddresses|] == sortedAddresses;
  }

  /** The `reduce` that collects a window's entries from `claimsByAddress`. */
  function ReadChunk(window: seq<string>, table: map<string, seq<StringifiedProvenClaim>>): ClaimChunk
    requires forall a :: a in window ==> a in table
  {
    map a | a in window :: table[a]
  }

  /** Reading a window's entries from a table of `Entry` values gives the window's chunk. */
  lemma ChunkFromTable(window: seq<string>, claims: seq<ProvenClaim>, table: map<string, seq<StringifiedProvenClaim>>)
    requires forall a :: a in window ==> a in table && table[a] == Entry(claims, a)
    ensures ReadChunk(window, table) == ChunkOf(window, claims)
  {
  }

  /** Adding the routing entry and chunk of window `k` to those of the earlier windows. */
  lemma AddWindow(sorted: seq<string>, w: nat, claims: seq<ProvenClaim>,
                  addressChunks: map<string, string>, claimChunks: map<string, ClaimChunk>,
                  k: nat, first: string, last: string, chunk: ClaimChunk)
    requires w >= 1 && NoDup(sorted) && ChunkStart(k, w) < |sorted| && first == sorted[ChunkStart(k, w)]
    requires FirstWindows(sorted, w, claims, SplitClaims(addressChunks, claimChunks), k)
    requires last == sorted[LastIndex(|sorted|, w, ChunkStart(k, w))]
    requires chunk == ChunkOf(sorted[ChunkStart(k, w)..LastIndex(|sorted|, w, ChunkStart(k, w)) + 1], claims)
    ensures FirstWindows(sorted, w, claims, SplitClaims(addressChunks[first := last], claimChunks[first := chunk]), k + 1)
  {
    var after := SplitClaims(addressChunks[first := last], claimChunks[first := chunk]);
    assert first in FirstAccounts(sorted, w, k + 1);
    assert FirstAccounts(sorted, w, k) <= FirstAccounts(sorted, w, k + 1);
    AllWindows(sorted, w, claims, addressChunks, claimChunks, k, first, last, chunk);
  }

  /** Windows `0 .. k` are all in once window `k` is added. */
  lemma AllWindows(sorted: seq<string>, w: nat, claims: seq<ProvenClaim>,
                   addressChunks: map<string, string>, claimChunks: map<string, ClaimChunk>,
                   k: nat, first: string, last: string, chunk: ClaimChunk)
    requires w >= 1 && NoDup(sorted) && ChunkStart(k, w) < |sorted| && first == sorted[ChunkStart(k, w)]
    requires forall j :: 0 <= j < k ==> WindowAt(sorted, w, claims, SplitClaims(addressChunks, claimChunks), j)
    requires last == sorted[LastIndex(|sorted|, w, ChunkStart(k, w))]
    requires chunk == ChunkOf(sorted[ChunkStart(k, w)..LastIndex(|sorted|, w, ChunkStart(k, w)) + 1], claims)
    ensures var after := SplitClaims(addressChunks[first := last], claimChunks[first := chunk]);
      forall j :: 0 <= j < k + 1 ==> WindowAt(sorted, w, claims, after, j)
  {
    var after := SplitClaims(addressChunks[first := last], claimChunks[first := chunk]);
    forall j | 0 <= j < k + 1 ensures WindowAt(sorted, w, claims, after, j) {
      if j < k {
        KeepWindow(sorted, w, claims, addressChunks, claimChunks, k, first, last, chunk, j);
      } else {
        NewWindow(sorted, w, claims, addressChunks, claimChunks, k, first, last, chunk);
      }
    }
  }

  /** Once every window is in, the keys are exactly the windows' first accounts. */
  lemma KeysAreFirstAccounts(sorted: seq<string>, w: nat, claims: seq<ProvenClaim>, r: SplitClaims, k: nat)
    requires w >= 1 && FirstWindows(sorted, w, claims, r, k)
    ensures r.addressChunks.Keys == FirstAccounts(sorted, w, k)
    ensures r.claimChunks.Keys == FirstAccounts(sorted, w, k)
  {
    FirstAccountsAreKeys(sorted, w, claims, r, k, k);
  }

  lemma {:induction false} FirstAccountsAreKeys(sorted: seq<string>, w: nat, claims: seq<ProvenClaim>, r: SplitClaims, k: nat, m: nat)
    requires w >= 1 && m <= k && (m > 0 ==> ChunkStart(m - 1, w) < |sorted|)
    requires forall j :: 0 <= j < k ==> WindowAt(sorted, w, claims, r, j)
    ensures FirstAccounts(sorted, w, m) <= r.addressChunks.Keys
    ensures FirstAccounts(sorted, w, m) <= r.claimChunks.Keys
  {
    if m > 0 {
      assert WindowAt(sorted, w, claims, r, m - 1);
      if m > 1 {
        assert ChunkStart(m - 2, w) <= ChunkStart(m - 1, w);
      }
      FirstAccountsAreKeys(sorted, w, claims, r, k, m - 1);
    }
  }

  /** The first accounts of `k` windows are `k` different accounts. */
  lemma {:induction false} FirstAccountsCount(sorted: seq<string>, w: nat, k: nat)
    requires w >= 1 && NoDup(sorted) && (k > 0 ==> ChunkStart(k - 1, w) < |sorted|)
    ensures |FirstAccounts(sorted, w, k)| == k
  {
    if k > 0 {
      if k > 1 {
        assert ChunkStart(k - 2, w) <= ChunkStart(k - 1, w);
      }
      FirstAccountsCount(sorted, w, k - 1);
      FreshKey(sorted, w, k - 1, k - 1);
    }
  }

  /** The first account of window `k` keys none of the earlier windows. */
  lemma {:induction false} FreshKey(sorted: seq<string>, w: nat, k: nat, j: nat)
    requires w >= 1 && NoDup(sorted) && ChunkStart(k, w) < |sorted| && j <= k
    ensures j > 0 ==> ChunkStart(j - 1, w) < |sorted|
    ensures sorted[ChunkStart(k, w)] !in FirstAccounts(sorted, w, j)
  {
    if j > 0 {
      StartsIncrease(j - 1, k, w);
      FreshKey(sorted, w, k, j - 1);
    }
  }

  lemma NewWindow(sorted: seq<string>, w: nat, claims: seq<ProvenClaim>,
                  addressChunks: map<string, string>, claimChunks: map<string, ClaimChunk>,
                  k: nat, first: string, last: string, chunk: ClaimChunk)
    requires w >= 1 && ChunkStart(k, w) < |sorted| && first == sorted[ChunkStart(k, w)]
    requires last == sorted[LastIndex(|sorted|, w, ChunkStart(k, w))]
    requires chunk == ChunkOf(sorted[ChunkStart(k, w)..LastIndex(|sorted|, w, ChunkStart(k, w)) + 1], claims)
    ensures WindowAt(sorted, w, claims, SplitClaims(addressChunks[first := last], claimChunks[first := chunk]), k)
  {
  }

  lemma KeepWindow(sorted: seq<string>, w: nat, claims: seq<ProvenClaim>,
                   addressChunks: map<string, string>, claimChunks: map<string, ClaimChunk>,
                   k: nat, first: string, last: string, chunk: ClaimChunk, j: nat)
    requires w >= 1 && NoDup(sorted) && ChunkStart(k, w) < |sorted| && first == sorted[ChunkStart(k, w)] && j < k
    requires WindowAt(sorted, w, claims, SplitClaims(addressChunks, claimChunks), j)
    ensures WindowAt(sorted, w, claims, SplitClaims(addressChunks[first := last], claimChunks[first := chunk]), j)
  {
    StartsIncrease(j, k, w);
    assert sorted[ChunkStart(j, w)] != first;
  }

  /** The stepping loop stops after exactly `NumChunks(n, w)` windows. */
  lemma WindowsCounted(n: nat, w: nat, k: nat)
    requires w >= 1 && n <= ChunkStart(k, w) && (k > 0 ==> ChunkStart(k - 1, w) < n)
    ensures k == NumChunks(n, w)
  {
    ChunkStartIsProduct(k, w);
    if k > 0 {
      ChunkStartIsProduct(k - 1, w);
    }
    CeilDivChar(n, w, k);
  }

  /** The state of the stepping loop before the window starting at `i`,
      which is window `k`. */
  ghost predicate Cutting(sorted: seq<string>, w: nat, claims: seq<ProvenClaim>,
                          addressChunks: map<string, string>, claimChunks: map<string, ClaimChunk>,
                          k: nat, i: nat)
    requires w >= 1
  {
    && i == ChunkStart(k, w)
    && FirstWindows(sorted, w, claims, SplitClaims(addressChunks, claimChunks), k)
  }

  /** Once the stepping loop has passed the end of the list, every window is in. */
  lemma CutDone(sorted: seq<string>, w: nat, claims: seq<ProvenClaim>,
                addressChunks: map<string, string>, claimChunks: map<string, ClaimChunk>,
                k: nat, i: nat)
    requires w >= 1 && NoDup(sorted) && |sorted| <= i
    requires Cutting(sorted, w, claims, addressChunks, claimChunks, k, i)
    ensures ChunkedAs(sorted, w, claims, SplitClaims(addressChunks, claimChunks))
  {
    KeysAreFirstAccounts(sorted, w, claims, SplitClaims(addressChunks, claimChunks), k);
    FirstAccountsCount(sorted, w, k);
    assert |addressChunks| == |addressChunks.Keys|;
  }

  /** The body of the stepping loop: the routing entry and the chunk of the
      window starting at `i`. */
  method CutWindow(
    claims: seq<ProvenClaim>,
    sortedAddresses: seq<string>,
    claimsByAddress: map<string, seq<StringifiedProvenClaim>>,
    desiredCohortSize: nat,
    i: nat,
    ghost k: nat,
    addressChunks: map<string, string>,
    claimChunks: map<string, ClaimChunk>)
    returns (addressChunks': map<string, string>, claimChunks': map<string, ClaimChunk>)
    requires desiredCohortSize >= 1 && NoDup(sortedAddresses) && i < |sortedAddresses|
    requires forall a :: a in sortedAddresses ==> a in claimsByAddress && claimsByAddress[a] == Entry(claims, a)
    requires Cutting(sortedAddresses, desiredCohortSize, claims, addressChunks, claimChunks, k, i)
    ensures Cutting(sortedAddresses, desiredCohortSize, claims, addressChunks', claimChunks', k + 1, i + desiredCohortSize)
  {
    var n := |sortedAddresses|;
    var lastIndex := Min(i + desiredCohortSize - 1, n - 1);
    var first := sortedAddresses[i];
    var chunk := ReadChunk(sortedAddresses[i..lastIndex + 1], claimsByAddress);
    addressChunks' := addressChunks[first := sortedAddresses[lastIndex]];
    claimChunks' := claimChunks[first := chunk];
    ChunkFromTable(sortedAddresses[i..lastIndex + 1], claims, claimsByAddress);
    assert lastIndex == LastIndex(n, desiredCohortSize, ChunkStart(k, desiredCohortSize));
    AddWindow(sortedAddresses, desiredCohortSize, claims, addressChunks, claimChunks, k, first, sortedAddresses[lastIndex], chunk);
  }

  /** The loop stepping `i += desiredCohortSize` over the sorted accounts. */
  method CutIntoChunks(
    claims: seq<ProvenClaim>,
    sortedAddresses: seq<string>,
    claimsByAddress: map<string, seq<StringifiedProvenClaim>>,
    desiredCohortSize: int)
    returns (r: SplitClaims)
    requires desiredCohortSize >= 1 || sortedAddresses == []
    requires NoDup(sortedAddresses)
    requires forall a :: a in sortedAddresses ==> a in claimsByAddress && claimsByAddress[a] == Entry(claims, a)
    ensures desiredCohortSize >= 1 ==> ChunkedAs(sortedAddresses, desiredCohortSize, claims, r)
    ensures sortedAddresses == [] ==> r.addressChunks == map[] && r.claimChunks == map[]
  {
    var n := |sortedAddresses|;
    var addressChunks: map<string, string> := map[];
    var claimChunks: map<string, ClaimChunk> := map[];
    ghost var w: nat := if desiredCohortSize >= 1 then desiredCohortSize else 1;
    ghost var k: nat := 0;
    var i := 0;
    while i < n
      invariant n > 0 ==> w == desiredCohortSize
      invariant Cutting(sortedAddresses, w, claims, addressChunks, claimChunks, k, i)
      decreases n - i
    {
      addressChunks, claimChunks := CutWindow(claims, sortedAddresses, claimsByAddress, desiredCohortSize, i, k, addressChunks, claimChunks);
      i := i + desiredCohortSize;
      k := k + 1;
    }
    if desiredCohortSize >= 1 {
      CutDone(sortedAddresses, w, claims, addressChunks, claimChunks, k, i);
    }
    r := SplitClaims(addressChunks, claimChunks);
  }

  /** Window `j` is the last window to start at or before position `p`. */
  lemma {:induction false} WindowOfPosition(w: nat, count: nat, p: nat) returns (j: nat)
    requires w >= 1 && p < ChunkStart(count, w)
    ensures j < count && ChunkStart(j, w) <= p < ChunkStart(j, w) + w
  {
    if ChunkStart(count - 1, w) <= p {
      j := count - 1;
    } else {
      j := WindowOfPosition(w, count - 1, p);
    }
  }

  /** Every key is the first account of some window. */
  lemma {:induction false} FirstAccountIndex(sorted: seq<string>, w: nat, k: nat, f: string) returns (j: nat)
    requires (k > 0 ==> ChunkStart(k - 1, w) < |sorted|) && f in FirstAccounts(sorted, w, k)
    ensures j < k && ChunkStart(j, w) < |sorted| && f == sorted[ChunkStart(j, w)]
  {
    if f == sorted[ChunkStart(k - 1, w)] {
      j := k - 1;
    } else {
      if k > 1 {
        assert ChunkStart(k - 2, w) <= ChunkStart(k - 1, w);
      }
      j := FirstAccountIndex(sorted, w, k - 1, f);
    }
  }

  /** There are `ceil(n / w)` chunks and as many routing entries. */
  lemma ChunkCount(claims: seq<ProvenClaim>, w: nat, r: SplitClaims)
    requires w >= 1 && IsSplitOf(claims, w, r)
    ensures |r.addressChunks| == |r.claimChunks| == NumChunks(|SortedAddresses(claims)|, w)
  {
    var count := |r.addressChunks|;
    WindowsCounted(|SortedAddresses(claims)|, w, count);
    assert |r.addressChunks| == |r.addressChunks.Keys|;
    assert |r.claimChunks| == |r.claimChunks.Keys|;
  }

  /** Every window but the last holds exactly `w` accounts, each window
      starts right after the previous one, and the last ends at the last
      account. */
  lemma WindowsTile(sorted: seq<string>, w: nat, claims: seq<ProvenClaim>, r: SplitClaims, j: nat)
    requires w >= 1 && ChunkedAs(sorted, w, claims, r) && j < |r.addressChunks|
    ensures ChunkStart(j, w) < |sorted|
    ensures j + 1 < |r.addressChunks| ==>
      && LastIndex(|sorted|, w, ChunkStart(j, w)) == ChunkStart(j, w) + w - 1
      && ChunkStart(j + 1, w) == LastIndex(|sorted|, w, ChunkStart(j, w)) + 1
    ensures j + 1 == |r.addressChunks| ==> LastIndex(|sorted|, w, ChunkStart(j, w)) == |sorted| - 1
  {
    var count := |r.addressChunks|;
    assert WindowAt(sorted, w, claims, r, j);
    if j + 1 < count {
      assert WindowAt(sorted, w, claims, r, count - 1);
      if j + 1 < count - 1 {
        StartsIncrease(j + 1, count - 1, w);
      }
    }
  }

  /** An account in the chunk of window `j` sits at a position of that window,
      and the chunk maps it to its `Entry`. */
  lemma PositionInWindow(sorted: seq<string>, w: nat, claims: seq<ProvenClaim>, r: SplitClaims, j: nat, a: string)
    returns (p: nat)
    requires w >= 1 && WindowAt(sorted, w, claims, r, j)
    requires a in r.claimChunks[sorted[ChunkStart(j, w)]]
    ensures ChunkStart(j, w) <= p <= LastIndex(|sorted|, w, ChunkStart(j, w)) && sorted[p] == a
    ensures r.claimChunks[sorted[ChunkStart(j, w)]][a] == Entry(claims, a)
  {
    var s := ChunkStart(j, w);
    var window := sorted[s..LastIndex(|sorted|, w, s) + 1];
    assert a in window;
    var q :| 0 <= q < |window| && window[q] == a;
    p := s + q;
  }

  /** An account in the chunk keyed by `f` sits at a position of the window
      that chunk comes from, and the chunk maps it to its `Entry`. */
  lemma PositionInChunk(sorted: seq<string>, w: nat, claims: seq<ProvenClaim>, r: SplitClaims, f: string, a: string)
    returns (j: nat, p: nat)
    requires w >= 1 && ChunkedAs(sorted, w, claims, r) && f in r.claimChunks && a in r.claimChunks[f]
    ensures j < |r.addressChunks| && WindowAt(sorted, w, claims, r, j)
    ensures f == sorted[ChunkStart(j, w)]
    ensures ChunkStart(j, w) <= p <= LastIndex(|sorted|, w, ChunkStart(j, w)) && sorted[p] == a
    ensures r.claimChunks[f][a] == Entry(claims, a)
  {
    j := FirstAccountIndex(sorted, w, |r.addressChunks|, f);
    assert WindowAt(sorted, w, claims, r, j);
    p := PositionInWindow(sorted, w, claims, r, j, a);
  }

  /** The account at position `p` lies in the chunk of the window covering `p`. */
  lemma ChunkAtPosition(sorted: seq<string>, w: nat, claims: seq<ProvenClaim>, r: SplitClaims, p: nat) returns (f: string)
    requires w >= 1 && ChunkedAs(sorted, w, claims, r) && p < |sorted|
    ensures f in r.claimChunks && sorted[p] in r.claimChunks[f]
  {
    var j := WindowOfPosition(w, |r.addressChunks|, p);
    assert WindowAt(sorted, w, claims, r, j);
    f := InWindow(sorted, w, claims, r, j, p);
  }

  lemma InWindow(sorted: seq<string>, w: nat, claims: seq<ProvenClaim>, r: SplitClaims, j: nat, p: nat) returns (f: string)
    requires w >= 1 && WindowAt(sorted, w, claims, r, j)
    requires ChunkStart(j, w) <= p < ChunkStart(j, w) + w && p < |sorted|
    ensures f in r.claimChunks && sorted[p] in r.claimChunks[f]
  {
    var s := ChunkStart(j, w);
    assert sorted[s..LastIndex(|sorted|, w, s) + 1][p - s] == sorted[p];
    f := sorted[s];
  }

  /** Two chunks holding the same account are the same chunk. */
  lemma ChunksDisjoint(sorted: seq<string>, w: nat, claims: seq<ProvenClaim>, r: SplitClaims, f: string, g: string, a: string)
    requires w >= 1 && NoDup(sorted) && ChunkedAs(sorted, w, claims, r)
    requires f in r.claimChunks && a in r.claimChunks[f] && g in r.claimChunks && a in r.claimChunks[g]
    ensures f == g
  {
    var j1, p1 := PositionInChunk(sorted, w, claims, r, f, a);
    var j2, p2 := PositionInChunk(sorted, w, claims, r, g, a);
    assert p1 == p2;
    SameWindow(|sorted|, w, j1, j2, p1);
  }

  /** Windows do not overlap: a position lies in one window only. */
  lemma SameWindow(n: nat, w: nat, j1: nat, j2: nat, p: nat)
    requires w >= 1 && p < n
    requires ChunkStart(j1, w) <= p && ChunkStart(j1, w) < n && p <= LastIndex(n, w, ChunkStart(j1, w))
    requires ChunkStart(j2, w) <= p && ChunkStart(j2, w) < n && p <= LastIndex(n, w, ChunkStart(j2, w))
    ensures j1 == j2
  {
    if j1 < j2 {
      StartsIncrease(j1, j2, w);
    } else if j2 < j1 {
      StartsIncrease(j2, j1, w);
    }
  }

  /** Every account of the claims lies in exactly one chunk, and no other account does. */
  lemma AccountInOneChunk(claims: seq<ProvenClaim>, w: nat, r: SplitClaims, a: string)
    requires w >= 1 && IsSplitOf(claims, w, r)
    ensures (exists f :: f in r.claimChunks && a in r.claimChunks[f]) <==> (exists c :: c in claims && c.account == a)
    ensures forall f, g :: f in r.claimChunks && a in r.claimChunks[f] && g in r.claimChunks && a in r.claimChunks[g] ==> f == g
  {
    SortedAddressesProperties(claims);
    InOneChunk(SortedAddresses(claims), w, claims, r, a);
  }

  lemma InOneChunk(sorted: seq<string>, w: nat, claims: seq<ProvenClaim>, r: SplitClaims, a: string)
    requires w >= 1 && NoDup(sorted) && ChunkedAs(sorted, w, claims, r)
    ensures (exists f :: f in r.claimChunks && a in r.claimChunks[f]) <==> a in sorted
    ensures forall f, g :: f in r.claimChunks && a in r.claimChunks[f] && g in r.claimChunks && a in r.claimChunks[g] ==> f == g
  {
    if a in sorted {
      var p :| 0 <= p < |sorted| && sorted[p] == a;
      var f := ChunkAtPosition(sorted, w, claims, r, p);
    }
    if exists f :: f in r.claimChunks && a in r.claimChunks[f] {
      var f :| f in r.claimChunks && a in r.claimChunks[f];
      var j, p := PositionInChunk(sorted, w, claims, r, f, a);
    }
    forall f, g | f in r.claimChunks && a in r.claimChunks[f] && g in r.claimChunks && a in r.claimChunks[g]
      ensures f == g
    {
      ChunksDisjoint(sorted, w, claims, r, f, g, a);
    }
  }

  /** The accounts of the chunk keyed by `f` lie between `f` and
      `addressChunks[f]` in lower-case order, strictly inside when no two
      accounts differ only in case. */
  lemma ChunkBounds(claims: seq<ProvenClaim>, w: nat, r: SplitClaims, f: string, a: string)
    requires w >= 1 && IsSplitOf(claims, w, r) && f in r.claimChunks && a in r.claimChunks[f]
    ensures f in r.addressChunks
    ensures !Before(a, f) && !Before(r.addressChunks[f], a)
    ensures CaseDistinct(AccountsOf(claims)) ==>
      (a == f || Before(f, a)) && (a == r.addressChunks[f] || Before(a, r.addressChunks[f]))
  {
    SortedAddressesProperties(claims);
    BetweenBounds(SortedAddresses(claims), w, claims, r, f, a);
  }

  lemma BetweenBounds(sorted: seq<string>, w: nat, claims: seq<ProvenClaim>, r: SplitClaims, f: string, a: string)
    requires w >= 1 && SortedByLower(sorted) && ChunkedAs(sorted, w, claims, r)
    requires f in r.claimChunks && a in r.claimChunks[f]
    ensures f in r.addressChunks
    ensures !Before(a, f) && !Before(r.addressChunks[f], a)
    ensures StrictlySortedByLower(sorted) ==>
      (a == f || Before(f, a)) && (a == r.addressChunks[f] || Before(a, r.addressChunks[f]))
  {
    var j, p := PositionInChunk(sorted, w, claims, r, f, a);
    var s := ChunkStart(j, w);
    var last := LastIndex(|sorted|, w, s);
    StrLessIrreflexive(Lower(a));
    assert sorted[s] == f && sorted[last] == r.addressChunks[f];
  }

  /** Each claim can be found in the chunk of its account, under its account. */
  lemma ClaimFound(claims: seq<ProvenClaim>, w: nat, r: SplitClaims, c: ProvenClaim)
    requires w >= 1 && IsSplitOf(claims, w, r) && c in claims
    ensures exists f :: f in r.claimChunks && c.account in r.claimChunks[f] && Stringify(c) in r.claimChunks[f][c.account]
  {
    var sorted := SortedAddresses(claims);
    SortedAddressesProperties(claims);
    assert c.account in sorted;
    var p :| 0 <= p < |sorted| && sorted[p] == c.account;
    var f := ChunkAtPosition(sorted, w, claims, r, p);
    var j, p' := PositionInChunk(sorted, w, claims, r, f, c.account);
    EntryHoldsClaim(claims, c);
  }

  /** Every record of a chunk reads back into a claim of the account it is filed under. */
  lemma RecordReadsBack(claims: seq<ProvenClaim>, w: nat, r: SplitClaims, f: string, a: string, x: StringifiedProvenClaim)
    requires w >= 1 && IsSplitOf(claims, w, r)
    requires f in r.claimChunks && a in r.claimChunks[f] && x in r.claimChunks[f][a]
    ensures exists c :: c in claims && c.account == a && Destringify(a, x) == Some(c)
  {
    var j, p := PositionInChunk(SortedAddresses(claims), w, claims, r, f, a);
    EntryReadsBack(claims, a, x);
  }

  /** The entry of an account holds the record of each of its claims. */
  lemma EntryHoldsClaim(claims: seq<ProvenClaim>, c: ProvenClaim)
    requires c in claims
    ensures Stringify(c) in Entry(claims, c.account)
  {
    var group := ClaimsOfAccount(claims, c.account);
    assert c in group;
    var q :| 0 <= q < |group| && group[q] == c;
    assert StringifyAll(group)[q] == Stringify(c);
  }

  /** Every record of an account's entry reads back into one of its claims. */
  lemma EntryReadsBack(claims: seq<ProvenClaim>, a: string, x: StringifiedProvenClaim)
    requires x in Entry(claims, a)
    ensures exists c :: c in claims && c.account == a && Destringify(a, x) == Some(c)
  {
    var group := ClaimsOfAccount(claims, a);
    var q :| 0 <= q < |group| && StringifyAll(group)[q] == x;
    var c := group[q];
    assert c in group;
    StringifyRoundTrip(c);
  }
}
