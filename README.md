# CoW token distribution tooling: verified model

This project models the off-chain tooling that the CoW Protocol token repository
uses to distribute vCOW claims. It covers three parts:

- **Splitting a claim list into chunk files** (`splitClaims`). The distinct accounts
  of a list of proven claims are sorted by their lower-case text. They are then cut
  into windows of `desiredCohortSize` accounts (70 by default). Each window becomes
  two things:
  - a routing entry, from its first account to its last;
  - a chunk, mapping every account of the window to the text records of its claims.
- **The mass-claim task.** It resolves the payment tokens the payer pays with,
  skips the claim types paid in other tokens, and optionally keeps only an address
  pool. It then claims for up to `amountToClaimFor` claims, in batches of at most
  20. Each batch is taken from the front of the pool by `takeOpenClaims`, which asks
  the virtual token whether each index has already been claimed, 20 indices at a time.
- **The test-deployment generator.** It builds every subset of the claim types (the
  bit-mask power set) and drops the subsets that are not admissible: the empty one,
  and Team together with a vesting type. It hands the admissible configurations to
  the users in turn, with a pseudorandom whole-token amount each. It also computes
  the GNO and native-token prices from the USDC prices with BigNumber's truncating
  division.

Modules:

- `Wrappers`: Option and Result.
- `Seqs`: NoDup, Filter (`Array.prototype.filter`) and Flatten.
- `Arith`: Min and ceiling division.
- `Claims`: claim types and claim records, the type labels, and the decimal text of
  amounts.
- `AddressOrder`: lower-casing, JavaScript's string `<`, and the sort with the
  source's comparator.
- `Split`: the splitter.
- `Tokens`: the default-address tables and `defaultIfUnset`.
- `MassClaim`: the mass-claim task.
- `TestDeployment`: the test-deployment generator.

The loops of the source are Dafny methods with loop invariants:

- the grouping loop and the window loop of `splitClaims`;
- the scan of `takeOpenClaims`;
- the batch loop of `massClaim`;
- the power-set loop.

Each method is proved against a specification function, and the lemmas state the
properties of those functions.

How the model represents the outside world:

- **The virtual token's registry.** `isClaimed(index)` becomes membership of the
  index in a set of claimed indices. The batch loop takes one such set per round,
  `registryAt(b)`, so the claims made by earlier rounds and by anyone else between
  rounds are both covered.
- **Functions the model cannot see.** Each becomes a parameter:
  - `utils.getAddress` is `checksum`;
  - the keccak digest `id(i.toString())` is `digest`;
  - the token's `decimals` is `decimals`.

## Model

| member | source | states |
|---|---|---|
| Seqs.Filter | src/tasks/mass-claim.ts:203-205 | `Array.prototype.filter` returns no more elements than it is given, and exactly the given elements that pass the test |
| Seqs.FilterCount | src/tasks/mass-claim.ts:203-205 | a kept element keeps its multiplicity and a dropped one has none |
| Seqs.FilterInOrder | src/tasks/mass-claim.ts:203-211 | the kept elements are the input's elements at strictly increasing positions, so the filter keeps the input's order |
| Seqs.FilterDropsNothing | src/tasks/mass-claim.ts:203-211 | every position whose element passes the test is one of the kept positions |
| Claims.TypeLabelRoundTrip | src/ts/split.ts:57 | the type label written to a chunk record parses back to the same claim type |
| Claims.Decimal | src/ts/split.ts:58 | the amount text is non-empty and all digits, with a leading zero exactly for 0 |
| Claims.DecimalRoundTrip | src/ts/split.ts:58 | the decimal text of an amount reads back to the same amount |
| AddressOrder.Lower | src/ts/split.ts:48 | `toLowerCase` keeps the length, leaves no upper-case ASCII letter, and changes a character only into its lower-case form |
| AddressOrder.LowerUnique | src/ts/split.ts:48 | that contract leaves exactly one possible result |
| AddressOrder.SameLowerIffCaseVariants | src/ts/split.ts:48 | two accounts have the same lower-cased text exactly when they differ only in the case of ASCII letters |
| AddressOrder.StrLessIrreflexive | src/ts/split.ts:48 | no account sorts before itself under the comparator's `<` |
| AddressOrder.StrLessTransitive | src/ts/split.ts:48 | the comparator's string `<` is transitive |
| AddressOrder.StrLessTotal | src/ts/split.ts:48 | any two different strings are ordered one way or the other |
| AddressOrder.StrLessAsymmetric | src/ts/split.ts:48 | two strings are never each before the other |
| AddressOrder.SortByLowerCorrect | src/ts/split.ts:48 | the sort returns a permutation of its input, ordered by lower-case text |
| AddressOrder.SortStrictWhenCaseDistinct | src/ts/split.ts:43-48 | distinct accounts that also differ after lower-casing come out strictly increasing |
| AddressOrder.StrictlySortedUnique | src/ts/split.ts:48 | there is only one strictly increasing arrangement of a multiset of accounts, so the sort's result does not depend on its algorithm |
| Split.StringifyRoundTrip | src/ts/split.ts:54-59 | a chunk record keeps the proof, index, type and amount of its claim: reading it back under the claim's account gives the claim |
| Split.FirstOccurrences | src/ts/split.ts:43-47 | the first-occurrence filter keeps every account once and no other value |
| Split.SortedAddressesProperties | src/ts/split.ts:43-48 | `sortedAddresses` lists each account of the claims exactly once, in lower-case order, strictly increasing when accounts are case-distinct |
| Split.ClaimsOfAccount | src/ts/split.ts:52-53 | the filter keeps exactly the claims of the account, each with its multiplicity |
| Split.ClaimsOfAccountFilters | src/ts/split.ts:52-53 | the claims of an account are those `claims.filter(({ account }) => account === user)` keeps, in input order |
| Split.GroupByAccount | src/ts/split.ts:50-60 | `claimsByAddress` has exactly the sorted accounts as keys, each holding the records of its claims in input order |
| Split.CutIntoChunks | src/ts/split.ts:62-77 | the window loop builds routing entries and chunks for consecutive windows of `desiredCohortSize` accounts covering the list, and nothing for an empty list |
| Split.SplitClaimsOf | src/ts/split.ts:39-80 | `splitClaims` returns the split of the claims into windows, and empty maps for no claims; it ends only for a positive cohort size or an empty list |
| Split.SplitClaimsDefault | src/ts/split.ts:39-42 | `splitClaims` called without a cohort size splits into windows of 70 accounts |
| Split.WindowsCounted | src/ts/split.ts:65 | the loop stepping `i += desiredCohortSize` runs exactly ceil(n / size) times |
| Split.ChunkCount | src/ts/split.ts:62-77 | there are ceil(accounts / size) chunks and as many routing entries |
| Split.WindowsTile | src/ts/split.ts:65-69 | every window but the last holds exactly `size` accounts, each starts where the previous ended, and the last ends at the last account |
| Split.AccountInOneChunk | src/ts/split.ts:65-76 | an account is in some chunk exactly when it has a claim, and then in only one chunk |
| Split.ChunkBounds | src/ts/split.ts:66-70 | every account of the chunk keyed by `f` lies between `f` and the routing entry `addressChunks[f]` in lower-case order (strictly inside when accounts are case-distinct), so the routing entries find an account's chunk |
| Split.ClaimFound | src/ts/split.ts:50-76 | each claim's record is in the chunk file of its account, under its account |
| Split.RecordReadsBack | src/ts/split.ts:50-76 | every record in a chunk reads back into a claim of the account it is filed under |
| Split.ChunksDisjoint | src/ts/split.ts:65-76 | two chunks that hold the same account are the same chunk |
| Split.StartsIncrease | src/ts/split.ts:65 | window starts grow by at least the cohort size |
| Tokens.DefaultIfUnset | src/tasks/mass-claim.ts:58-74 | fails exactly when no address is given and the chain has no default; a given address wins; otherwise the chain's default |
| Tokens.ExplicitAddressWins | src/tasks/test-deployment.ts:90-106 | an address given on the command line is used whatever the chain and its table |
| Tokens.TestDeploymentTokens | src/tasks/test-deployment.ts:120-124 | the USDC, GNO and WETH addresses resolve exactly when each of the three resolves |
| Tokens.TestDeploymentNeedsAddressesOffRinkeby | src/tasks/test-deployment.ts:32-42 | with the Rinkeby-only table, resolution succeeds exactly on chain 4 or when all three addresses are given |
| Tokens.SharedDefaultsResolve | src/ts/lib/constants.ts:3-26 | with the shared table, the corrected resolution needs no command-line address on chains 1, 4, 5, 100 and 11155111, and on any other chain fails exactly when a paid token has no address given |
| Tokens.ResolvePaymentTokens | src/tasks/mass-claim.ts:75-101 | the loop fails exactly when a paid token cannot be resolved; otherwise it maps exactly the paid tokens, each to its `defaultIfUnset` address |
| Tokens.MassClaimPaymentTokens | src/tasks/mass-claim.ts:76-83 | the payment tokens as written: exactly the paid labels are keys |
| Tokens.MassClaimUsesUsdcAddressForGno | src/tasks/mass-claim.ts:83 | as written, paying with GNO with both a USDC and a GNO address given resolves GNO to the USDC address |
| Tokens.CorrectedPaymentTokens | src/tasks/mass-claim.ts:76-83 | with each label's own argument, exactly the paid labels are keys |
| Tokens.CorrectedFailsOnlyWithoutAddress | src/tasks/mass-claim.ts:58-83 | the corrected resolution fails exactly when a paid token has neither an argument nor a default on the chain |
| Tokens.CorrectedHonoursEachArgument | src/tasks/mass-claim.ts:76-83 | every paid token gets its own command-line address, or else its chain default |
| MassClaim.SkippedClaimTypes | src/tasks/mass-claim.ts:194-202 | a claim type is skipped exactly when it needs a payment token the payer does not pay with |
| MassClaim.PaidClaimKept | src/tasks/mass-claim.ts:203-205 | a claim survives exactly when its type needs no payment or its token is paid with |
| MassClaim.FirstInvalid | src/tasks/mass-claim.ts:208-210 | finds a claim whose account `utils.getAddress` rejects exactly when there is one |
| MassClaim.AddressPoolKeepsOrder | src/tasks/mass-claim.ts:207-211 | when every account is an address, the pool filter is `Array.prototype.filter` with the pool test, so it keeps the claims' order |
| MassClaim.FilterAddressPool | src/tasks/mass-claim.ts:207-211 | no pool keeps every claim; with a pool, it fails exactly when some account is not an address, and otherwise keeps exactly the claims whose checksummed account is in the pool |
| MassClaim.FullyExecuteClaim | src/tasks/mass-claim.ts:273-278 | the executable claim carries the proven claim unchanged and claims its whole claimable amount |
| MassClaim.FullyExecutedIsExecution | src/tasks/mass-claim.ts:273-278 | an executable claim that claims everything is the full execution of its proven part |
| MassClaim.OpenOfMembers | src/tasks/mass-claim.ts:260-263 | a claim is taken from a scanned stretch exactly when it lies in it and its index is not claimed |
| MassClaim.TakeOpenClaims | src/tasks/mass-claim.ts:247-271 | returns the open claims of the consumed front of the pool, in order, and the rest of the pool; it stops right after the `amount`-th open claim or at the end of the pool; the status queries are windows of at most 20 indices, in pool order |
| MassClaim.TakeBounds | src/tasks/mass-claim.ts:260-267 | for a positive amount, at most `amount` claims are taken, and exactly `amount` whenever the pool holds that many open claims |
| MassClaim.NegativeAmountTakesAll | src/tasks/mass-claim.ts:265-270 | a negative amount is never reached: the whole pool is consumed and all its open claims are taken |
| MassClaim.StopsAtUnique | src/tasks/mass-claim.ts:260-269 | the point where the scan stops is unique |
| MassClaim.OpenCountPasses | src/tasks/mass-claim.ts:260-265 | the count of taken claims climbs one at a time, so it passes every value up to its final one |
| MassClaim.ClaimInBatches | src/tasks/mass-claim.ts:213-240 | the rounds cut the pool into consecutive stretches and each round claims the open claims of its stretch, fully executed; round `b` is given `min(target - 20b, 20)` (the target itself when it is negative) and stops where `takeOpenClaims` stops on what is left of the pool; the claimed accounts are those of all batches in order; the sizes are 1 to 20 and sum to at most the target; the loop stops at the target or with an empty pool; a target of 0 sends nothing; a negative target sends at most one batch, holding every open claim; when the registry changes only on claims already consumed, the claimed accounts are those of the first `min(target, open)` open claims, in pool order |
| MassClaim.ClaimsFirstOpenClaims | src/tasks/mass-claim.ts:213-240 | when the registry changes only on claims the loop has already consumed, the batches are the first `min(target, open)` open claims of the pool, in pool order and fully executed (all open claims for a negative target), and the claimed accounts are their accounts |
| MassClaim.RoundsPrefix | src/tasks/mass-claim.ts:216-237 | under the same condition, the first `n` batches are the open claims of the pool up to the `n`-th cut, in the registry's state before the first round |
| MassClaim.RoundFilled | src/tasks/mass-claim.ts:260-267 | a round that stops before the end of the pool took exactly as many claims as it was given |
| MassClaim.ClaimsMatchCount | src/tasks/mass-claim.ts:216-233 | batches that each hold their logged size hold the logged total |
| MassClaim.OpenOfAgree | src/tasks/mass-claim.ts:255-263 | registry states that agree on the indices of a stretch of the pool leave the same claims of it open |
| MassClaim.ClaimsWithinCount | src/tasks/mass-claim.ts:216-229 | the loop never claims for more claims than it counts |
| MassClaim.RoundsBound | src/tasks/mass-claim.ts:213-220 | the loop runs at most ceil(amountToClaimFor / 20) rounds |
| TestDeployment.PowerSet | src/tasks/test-deployment.ts:195-202 | `powerSet` builds 2^n subsets, the `i`-th selecting the values at the set bits of `i` |
| TestDeployment.SubsetAtMember | src/tasks/test-deployment.ts:199 | a value is in the `i`-th subset exactly when it sits at a position whose bit (taken mod 32, as `1 << pos` does) is set in `i` |
| TestDeployment.SubsetAtHolds | src/tasks/test-deployment.ts:199 | for at most 32 distinct values, the value at `pos` is in subset `i` exactly when bit `pos` of `i` is set |
| TestDeployment.EmptyAndFullSubsets | src/tasks/test-deployment.ts:198-199 | mask 0 gives the empty subset and mask 2^n - 1 gives all values |
| TestDeployment.DistinctMasksDistinctSubsets | src/tasks/test-deployment.ts:195-202 | distinct masks below 2^n give distinct subsets of distinct values |
| TestDeployment.EverySubsetBuilt | src/tasks/test-deployment.ts:195-202 | every subset of at most 32 values is built by some mask below 2^n |
| TestDeployment.AllClaimTypesListsEveryType | src/tasks/test-deployment.ts:216 | the claim types handed to `powerSet` are every claim type, each once, and few enough for the 32-bit masks |
| TestDeployment.AdmissibleExactly | src/tasks/test-deployment.ts:211-224 | a set of claim types is an admissible configuration exactly when it is non-empty and does not pair Team with a vesting type |
| TestDeployment.AdmissibleConfigurationIsSubset | src/tasks/test-deployment.ts:216-224 | every admissible configuration is one of the power-set's subsets and lists each claim type once |
| TestDeployment.AdmissibleNotEmpty | src/tasks/test-deployment.ts:216-224 | there is at least one admissible configuration, so `i % length` is defined |
| TestDeployment.EveryConfigurationAssigned | src/tasks/test-deployment.ts:230-233 | with at least as many users as configurations, every admissible configuration is given to some user |
| TestDeployment.AmountInWholeTokens | src/tasks/test-deployment.ts:226-229 | the pseudorandom amount is a whole number of tokens below 10000 tokens |
| TestDeployment.GeneratedInUserOrder | src/tasks/test-deployment.ts:230-240 | the claims are the flattened per-user blocks in user order |
| TestDeployment.GeneratedClaimMember | src/tasks/test-deployment.ts:230-240 | a claim is generated exactly when some user `i` has its account, its type is in configuration `i`, and its amount is the amount of `i` |
| TestDeployment.TruncDiv | src/tasks/test-deployment.ts:309-317 | BigNumber division fails exactly on a zero divisor |
| TestDeployment.TruncDivRemainder | src/tasks/test-deployment.ts:309-317 | the quotient truncates toward zero: the remainder `a - q * b` is smaller than the divisor in size and never of the opposite sign to the dividend, and `|q * b| <= |a|` |
| TestDeployment.TokenPriceIsFloor | src/tasks/test-deployment.ts:309-317 | the price fails exactly for a zero USDC price of the token; for positive prices it is the largest `p` with `p * usdcPerToken <= 10^decimals * usdcPerCow` |

## Left out

- The claim type enumeration file (`ClaimType` and `allClaimTypes`, imported by both tasks from src/ts) and the real token's metadata are not part of this model. The task code names four claim types (Investor, GnoOption, UserOption, Team); the fifth, Airdrop, is the remaining member of that enumeration, named in the comment of `generateClaims` (src/tasks/test-deployment.ts:207). `Claims.ClaimType` has these five. `decimals` is a parameter.
- AddressOrder.Lower: lower-cases ASCII letters only. Ethereum addresses are ASCII, and Unicode case mapping is not modelled. Likewise `AddressOrder.StrLess` compares Unicode scalar values (Dafny `char`), while JavaScript's `<` compares UTF-16 code units; the two orders agree on text without characters above U+FFFF, which addresses never contain.
- Split.SplitClaimsOf: when two distinct accounts are equal after lower-casing, the source's comparator is inconsistent and the order of the sort's result depends on the engine. The model fixes an insertion sort's order for such ties. The uniqueness lemma covers only case-distinct accounts.
- JavaScript object-key order and key coercion in `claimsByAddress`, `addressChunks` and `claimChunks` are not modelled: the maps are Dafny maps.
- The Merkle tree, `computeProofs`, `getClaimManyInput`, the contract calls and transactions (`claimMany`, `approve`, the allowance loop), waiting for receipts, logging, file I/O and argument parsing (`parseUnits`, `Number(...)`) are left out. They are I/O or foreign calls.
- MassClaim.ClaimInBatches: takes `amountToClaimFor` as an integer. The task converts the argument with `Number(...)`, and a non-integer or NaN target is not modelled.
- MassClaim.TakeOpenClaims: one registry state, `claimed`, serves the whole call, across all of its windows. The source awaits a separate `Promise.all` of `isClaimed` calls per window (and each call on its own), so a change to the registry between two windows of one call, or within a window, is not modelled. Between rounds of the batch loop the state does change (`registryAt`).
- MassClaim.ClaimsFirstOpenClaims: holds only when nothing changes the registry's status of the claims the loop has not reached yet (`Undisturbed`); without that, the per-round statements of `ClaimInBatches` still hold.
- The chain check `isChainIdSupported` and the payment tokens' `decimals`/`symbol` reads are left out. They are contract calls.
- TestDeployment.PowerSet: `2 ** values.length` is a float and `1 << pos` wraps at 32 bits. The model keeps the wrap (bit `pos % 32`), but the membership lemmas assume at most 32 values. The task passes five.
- TestDeployment.PseudorandomAmount: the keccak digest of the user's index is the parameter `digest`. Only the `mod 10000` and the scaling by `10^decimals` are modelled.
- TestDeployment.TokenPriceIsFloor: the floor property is stated for a non-negative COW price and a positive token price. For other signs, TruncDivRemainder states the truncation: a remainder smaller than the divisor in size and never of the opposite sign to the dividend.
- Sending the claims of each batch to the contract (`claimMany`) is represented by the list of executed claims, and its effect on the registry by `registryAt`.

## Findings

| source | as written | input that shows it | evidently intended | confidence | as-written member | corrected member |
|---|---|---|---|---|---|---|
| src/tasks/mass-claim.ts:83 | every paid label is resolved with the USDC command-line address as its override | USDC address `0xUSDC` and GNO address `0xGNO` given, paying with GNO only: GNO resolves to `0xUSDC` | each label uses its own argument (`address` of the loop), falling back to the chain default | not executed | Tokens.MassClaimUsesUsdcAddressForGno | Tokens.CorrectedHonoursEachArgument |

The skipped claim types depend only on which labels are paid for, and that set is the
same in both versions. So the rest of the mass-claim model (`MassClaim.SkippedClaimTypes`)
holds for the corrected resolution.
