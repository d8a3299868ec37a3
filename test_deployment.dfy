/** The claims the test deployment generates: the power set of the claim types
    enumerated by bit masks, the admissible claim configurations among them,
    the round-robin assignment of configurations to the generated users, and
    the integer token prices handed to the virtual token. */
module TestDeployment {
  import opened Wrappers
  import opened Seqs
  import opened Claims
  import opened Arith

  function Pow2(n: nat): (r: nat)
    ensures r >= 1
  {
    if n == 0 then 1 else 2 * Pow2(n - 1)
  }

  function Pow10(n: nat): (r: nat)
    ensures r >= 1
  {
    if n == 0 then 1 else 10 * Pow10(n - 1)
  }

  // ---------------------------------------------------------------------------
  // powerSet
  // ---------------------------------------------------------------------------

  /** Bit `p` of `i`, counting from the least significant bit. */
  predicate Bit(i: nat, p: nat)
  {
    if p == 0 then i % 2 == 1 else Bit(i / 2, p - 1)
  }

  /** JavaScript's `(i & (1 << pos)) !== 0`: both operands are cut to 32 bits
      and the shift count is taken modulo 32, so position `pos` tests bit
      `pos % 32` of `i`. */
  predicate Selected(i: nat, pos: nat)
  {
    Bit(i, pos % 32)
  }

  /** The subset built for mask `i`: the values whose position `i` selects, in
      their original order (`values.filter((_, pos) => ...)`). */
  function SubsetAt<T>(values: seq<T>, i: nat): seq<T>
  {
    if values == [] then []
    else SubsetAt(values[..|values| - 1], i) + (if Selected(i, |values| - 1) then [values[|values| - 1]] else [])
  }

  /** The subsets for the masks `0 <= i < 2 ** values.length`, in mask order. */
  function Subsets<T>(values: seq<T>): seq<seq<T>>
  {
    seq(Pow2(|values|), i requires 0 <= i < Pow2(|values|) => SubsetAt(values, i))
  }

  /** `powerSet`: one subset per mask, in mask order. The source gathers them in
      a `Set` of freshly built `Set` objects, which never compare equal, so all
      `2 ** n` of them stay, in insertion order; a `Set` is modelled by the
      sequence of its elements in insertion order. */
  method PowerSet<T>(values: seq<T>) returns (result: seq<seq<T>>)
    ensures |result| == Pow2(|values|)
    ensures forall i :: 0 <= i < |result| ==> result[i] == SubsetAt(values, i)
  {
    result := [];
    var i := 0;
    while i < Pow2(|values|)
      invariant i <= Pow2(|values|) && |result| == i
      invariant forall k :: 0 <= k < i ==> result[k] == SubsetAt(values, k)
    {
      result := result + [SubsetAt(values, i)];
      i := i + 1;
    }
  }

  /** A value is in subset `i` exactly when some position holding it is selected by `i`. */
  lemma {:induction false} SubsetAtMember<T>(values: seq<T>, i: nat, x: T)
    ensures x in SubsetAt(values, i) <==> exists pos :: 0 <= pos < |values| && values[pos] == x && Selected(i, pos)
  {
    if values != [] {
      var n := |values| - 1;
      var init := values[..n];
      SubsetAtMember(init, i, x);
      if x in SubsetAt(values, i) {
        if x in SubsetAt(init, i) {
          var pos :| 0 <= pos < |init| && init[pos] == x && Selected(i, pos);
          assert values[pos] == x;
        } else {
          assert values[n] == x && Selected(i, n);
        }
      } else {
        forall pos | 0 <= pos < |values| && values[pos] == x
          ensures !Selected(i, pos)
        {
          if pos < n {
            assert init[pos] == x;
          }
        }
      }
    }
  }

  /** Of distinct values, subset `i` holds the one at `pos` exactly when bit `pos` of `i` is set. */
  lemma {:induction false} SubsetAtHolds<T>(values: seq<T>, i: nat, pos: nat)
    requires NoDup(values) && pos < |values| <= 32
    ensures values[pos] in SubsetAt(values, i) <==> Bit(i, pos)
  {
    SubsetAtMember(values, i, values[pos]);
    assert pos % 32 == pos;
    if values[pos] in SubsetAt(values, i) {
      var pos' :| 0 <= pos' < |values| && values[pos'] == values[pos] && Selected(i, pos');
      assert pos' == pos;
    }
  }

  lemma {:induction false} SubsetAtAll<T>(values: seq<T>, i: nat)
    requires forall pos :: 0 <= pos < |values| ==> Selected(i, pos)
    ensures SubsetAt(values, i) == values
  {
    if values != [] {
      var n := |values| - 1;
      SubsetAtAll(values[..n], i);
      assert values[..n] + [values[n]] == values;
    }
  }

  lemma {:induction false} SubsetAtNone<T>(values: seq<T>, i: nat)
    requires forall pos :: 0 <= pos < |values| ==> !Selected(i, pos)
    ensures SubsetAt(values, i) == []
  {
    if values != [] {
      SubsetAtNone(values[..|values| - 1], i);
    }
  }

  lemma {:induction false} NoBitOfZero(p: nat)
    ensures !Bit(0, p)
  {
    if p > 0 {
      NoBitOfZero(p - 1);
    }
  }

  lemma {:induction false} AllBitsOfFull(n: nat, p: nat)
    requires p < n
    ensures Bit(Pow2(n) - 1, p)
  {
    if p > 0 {
      assert (Pow2(n) - 1) / 2 == Pow2(n - 1) - 1;
      AllBitsOfFull(n - 1, p - 1);
    }
  }

  /** The power set starts with the empty subset and ends with the full one. */
  lemma {:induction false} EmptyAndFullSubsets<T>(values: seq<T>)
    requires |values| <= 32
    ensures SubsetAt(values, 0) == []
    ensures SubsetAt(values, Pow2(|values|) - 1) == values
  {
    forall pos | 0 <= pos < |values|
      ensures !Selected(0, pos)
    {
      NoBitOfZero(pos % 32);
    }
    SubsetAtNone(values, 0);
    var full := Pow2(|values|) - 1;
    forall pos | 0 <= pos < |values|
      ensures Selected(full, pos)
    {
      assert pos % 32 == pos;
      AllBitsOfFull(|values|, pos);
    }
    SubsetAtAll(values, full);
  }

  /** Two different masks below `2 ** n` differ in one of their low `n` bits. */
  lemma {:induction false} DifferingBit(i: nat, j: nat, n: nat) returns (p: nat)
    requires i != j && i < Pow2(n) && j < Pow2(n)
    ensures p < n && Bit(i, p) != Bit(j, p)
  {
    if i % 2 != j % 2 {
      p := 0;
    } else {
      var q := DifferingBit(i / 2, j / 2, n - 1);
      p := q + 1;
    }
  }

  /** Distinct masks build distinct subsets of distinct values (up to 32 of them). */
  lemma {:induction false} DistinctMasksDistinctSubsets<T>(values: seq<T>, i: nat, j: nat)
    requires NoDup(values) && |values| <= 32
    requires i != j && i < Pow2(|values|) && j < Pow2(|values|)
    ensures SubsetAt(values, i) != SubsetAt(values, j)
  {
    var p := DifferingBit(i, j, |values|);
    SubsetAtHolds(values, i, p);
    SubsetAtHolds(values, j, p);
  }

  /** The number whose binary digits, least significant first, are `mask`. */
  function FromBits(mask: seq<bool>): nat
  {
    if mask == [] then 0 else (if mask[0] then 1 else 0) + 2 * FromBits(mask[1..])
  }

  lemma {:induction false} FromBitsBits(mask: seq<bool>)
    ensures FromBits(mask) < Pow2(|mask|)
    ensures forall p :: 0 <= p < |mask| ==> Bit(FromBits(mask), p) == mask[p]
  {
    if mask != [] {
      FromBitsBits(mask[1..]);
      var x := FromBits(mask);
      assert x / 2 == FromBits(mask[1..]);
      forall p | 0 < p < |mask|
        ensures Bit(x, p) == mask[p]
      {
        assert mask[1..][p - 1] == mask[p];
      }
    }
  }

  /** Every subset of the values (up to 32 of them) is built for some mask. */
  lemma {:induction false} EverySubsetBuilt<T>(values: seq<T>, s: set<T>) returns (i: nat)
    requires |values| <= 32
    requires forall x :: x in s ==> x in values
    ensures i < Pow2(|values|)
    ensures forall x :: x in SubsetAt(values, i) <==> x in s
  {
    var mask := seq(|values|, p requires 0 <= p < |values| => values[p] in s);
    FromBitsBits(mask);
    i := FromBits(mask);
    forall x
      ensures x in SubsetAt(values, i) <==> x in s
    {
      SubsetAtMember(values, i, x);
      if x in s {
        var pos :| 0 <= pos < |values| && values[pos] == x;
        assert mask[pos] && pos % 32 == pos;
      }
      if x in SubsetAt(values, i) {
        var pos :| 0 <= pos < |values| && values[pos] == x && Selected(i, pos);
        assert pos % 32 == pos && mask[pos];
      }
    }
  }

  // ---------------------------------------------------------------------------
  // generateClaims
  // ---------------------------------------------------------------------------

  const VestingClaimTypes: seq<ClaimType> := [GnoOption, UserOption, Investor]

  /** A team claim cannot be combined with any vesting claim. */
  predicate NoTeamWithVesting(configuration: seq<ClaimType>)
  {
    !(Team in configuration && exists t :: t in VestingClaimTypes && t in configuration)
  }

  predicate NonEmpty(configuration: seq<ClaimType>)
  {
    |configuration| != 0
  }

  /** The claim types `generateClaims` takes the power set of,
      `new Set(allClaimTypes)` in iteration order: every claim type, each once,
      and few enough for the 32-bit masks. `Claims.AllClaimTypes` is such a
      list. */
  predicate ListsEveryType(allClaimTypes: seq<ClaimType>)
  {
    |allClaimTypes| <= 32 && NoDup(allClaimTypes) && forall t: ClaimType :: t in allClaimTypes
  }

  lemma AllClaimTypesListsEveryType()
    ensures ListsEveryType(AllClaimTypes)
  {
    assert AllClaimTypes[0] == Airdrop && AllClaimTypes[1] == GnoOption && AllClaimTypes[2] == UserOption;
    assert AllClaimTypes[3] == Investor && AllClaimTypes[4] == Team;
    forall t: ClaimType
      ensures t in AllClaimTypes
    {
      match t
      case Airdrop => assert AllClaimTypes[0] == t;
      case GnoOption => assert AllClaimTypes[1] == t;
      case UserOption => assert AllClaimTypes[2] == t;
      case Investor => assert AllClaimTypes[3] == t;
      case Team => assert AllClaimTypes[4] == t;
    }
  }

  /** The admissible claim configurations: the power set of the claim types,
      without the impossible ones and then without the empty one, in mask order. */
  function AdmissibleConfigurations(allClaimTypes: seq<ClaimType>): seq<seq<ClaimType>>
  {
    Filter(Filter(Subsets(allClaimTypes), NoTeamWithVesting), NonEmpty)
  }

  /** A set of claim types is the content of an admissible configuration exactly
      when it is not empty and does not pair `Team` with a vesting claim type. */
  lemma {:induction false} AdmissibleExactly(allClaimTypes: seq<ClaimType>, s: set<ClaimType>)
    requires ListsEveryType(allClaimTypes)
    ensures (exists c :: c in AdmissibleConfigurations(allClaimTypes) && forall t :: t in c <==> t in s)
      <==> s != {} && !(Team in s && (GnoOption in s || UserOption in s || Investor in s))
  {
    if exists c :: c in AdmissibleConfigurations(allClaimTypes) && forall t :: t in c <==> t in s {
      var c :| c in AdmissibleConfigurations(allClaimTypes) && forall t :: t in c <==> t in s;
      AdmissibleContent(allClaimTypes, c, s);
    }
    if s != {} && !(Team in s && (GnoOption in s || UserOption in s || Investor in s)) {
      ContentAdmissible(allClaimTypes, s);
    }
  }

  lemma AdmissibleContent(allClaimTypes: seq<ClaimType>, c: seq<ClaimType>, s: set<ClaimType>)
    requires c in AdmissibleConfigurations(allClaimTypes) && forall t :: t in c <==> t in s
    ensures s != {} && !(Team in s && (GnoOption in s || UserOption in s || Investor in s))
  {
    var vesting := VestingClaimTypes;
    assert vesting[0] == GnoOption && vesting[1] == UserOption && vesting[2] == Investor;
    assert c[0] in s;
  }

  lemma ContentAdmissible(allClaimTypes: seq<ClaimType>, s: set<ClaimType>)
    requires ListsEveryType(allClaimTypes)
    requires s != {} && !(Team in s && (GnoOption in s || UserOption in s || Investor in s))
    ensures exists c :: c in AdmissibleConfigurations(allClaimTypes) && forall t :: t in c <==> t in s
  {
    var i := EverySubsetBuilt(allClaimTypes, s);
    var c := SubsetAt(allClaimTypes, i);
    assert c == Subsets(allClaimTypes)[i];
    var x :| x in s;
    assert x in c;
    assert c in AdmissibleConfigurations(allClaimTypes);
  }

  /** Each admissible configuration is the subset of some mask, so it lists
      distinct claim types in the order of `allClaimTypes`. */
  lemma {:induction false} AdmissibleConfigurationIsSubset(allClaimTypes: seq<ClaimType>, c: seq<ClaimType>) returns (i: nat)
    requires NoDup(allClaimTypes) && c in AdmissibleConfigurations(allClaimTypes)
    ensures i < Pow2(|allClaimTypes|) && c == SubsetAt(allClaimTypes, i) && NoDup(c)
  {
    var k :| 0 <= k < Pow2(|allClaimTypes|) && Subsets(allClaimTypes)[k] == c;
    i := k;
    SubsetNoDup(allClaimTypes, i);
  }

  lemma {:induction false} SubsetNoDup<T>(values: seq<T>, i: nat)
    requires NoDup(values)
    ensures NoDup(SubsetAt(values, i))
  {
    if values != [] {
      var n := |values| - 1;
      var init := values[..n];
      SubsetNoDup(init, i);
      if Selected(i, n) {
        var r := SubsetAt(init, i);
        forall k | 0 <= k < |r|
          ensures r[k] != values[n]
        {
          SubsetAtMember(init, i, r[k]);
        }
      }
    }
  }

  lemma AdmissibleNotEmpty(allClaimTypes: seq<ClaimType>)
    requires ListsEveryType(allClaimTypes)
    ensures |AdmissibleConfigurations(allClaimTypes)| > 0
  {
    AdmissibleExactly(allClaimTypes, {Airdrop});
  }

  /** The configuration of user `i`: the admissible configurations in turn. */
  function Configuration(allClaimTypes: seq<ClaimType>, i: nat): seq<ClaimType>
    requires ListsEveryType(allClaimTypes)
  {
    AdmissibleNotEmpty(allClaimTypes);
    var configurations := AdmissibleConfigurations(allClaimTypes);
    configurations[i % |configurations|]
  }

  /** With at least as many users as configurations, every admissible
      configuration is held by some user. */
  lemma {:induction false} EveryConfigurationAssigned(allClaimTypes: seq<ClaimType>, userCount: nat, c: seq<ClaimType>) returns (i: nat)
    requires ListsEveryType(allClaimTypes)
    requires c in AdmissibleConfigurations(allClaimTypes) && userCount >= |AdmissibleConfigurations(allClaimTypes)|
    ensures i < userCount && Configuration(allClaimTypes, i) == c
  {
    i := RoundRobinReaches(AdmissibleConfigurations(allClaimTypes), userCount, c);
  }

  lemma RoundRobinReaches<T>(choices: seq<T>, count: nat, c: T) returns (i: nat)
    requires c in choices && count >= |choices|
    ensures i < count && choices[i % |choices|] == c
  {
    var k :| 0 <= k < |choices| && choices[k] == c;
    i := k;
  }

  /** `pseudorandomAmount(i)`: the digest of the decimal text of `i` (keccak-256
      in the source, the parameter `digest` here) modulo 10000, in whole tokens
      of `decimals` decimals. */
  function PseudorandomAmount(digest: nat -> nat, decimals: nat, i: nat): nat
  {
    (digest(i) % 10000) * Pow10(decimals)
  }

  /** Every generated amount is a whole number of tokens below 10000 tokens. */
  lemma {:induction false} AmountInWholeTokens(digest: nat -> nat, decimals: nat, i: nat)
    ensures PseudorandomAmount(digest, decimals, i) % Pow10(decimals) == 0
    ensures PseudorandomAmount(digest, decimals, i) < 10000 * Pow10(decimals)
  {
    var k := digest(i) % 10000;
    var unit := Pow10(decimals);
    assert PseudorandomAmount(digest, decimals, i) == k * unit;
    DivUnique(k * unit, unit, k, 0);
    MulMonotone(k + 1, 10000, unit);
    assert (k + 1) * unit == k * unit + unit;
  }

  /** The claims of user `i`: one per type of its configuration, all for the
      same amount. */
  function UserClaims(allClaimTypes: seq<ClaimType>, account: string, i: nat, digest: nat -> nat, decimals: nat): seq<Claim>
    requires ListsEveryType(allClaimTypes)
  {
    var configuration := Configuration(allClaimTypes, i);
    seq(|configuration|, k requires 0 <= k < |configuration| =>
      Claim(account, configuration[k], PseudorandomAmount(digest, decimals, i)))
  }

  /** `generateClaims`: the claims of every user, user by user. */
  function GenerateClaims(allClaimTypes: seq<ClaimType>, users: seq<string>, digest: nat -> nat, decimals: nat): seq<Claim>
    requires ListsEveryType(allClaimTypes)
  {
    Flatten(seq(|users|, i requires 0 <= i < |users| => UserClaims(allClaimTypes, users[i], i, digest, decimals)))
  }

  /** A further user appends its own claims and changes no earlier one. */
  lemma {:induction false} GeneratedInUserOrder(allClaimTypes: seq<ClaimType>, users: seq<string>, user: string, digest: nat -> nat, decimals: nat)
    requires ListsEveryType(allClaimTypes)
    ensures GenerateClaims(allClaimTypes, users + [user], digest, decimals)
      == GenerateClaims(allClaimTypes, users, digest, decimals) + UserClaims(allClaimTypes, user, |users|, digest, decimals)
  {
    var users' := users + [user];
    var blocks' := seq(|users'|, i requires 0 <= i < |users'| => UserClaims(allClaimTypes, users'[i], i, digest, decimals));
    var blocks := seq(|users|, i requires 0 <= i < |users| => UserClaims(allClaimTypes, users[i], i, digest, decimals));
    assert blocks'[..|users|] == blocks;
  }

  /** A claim is generated exactly when it is for some user `i`, of a type in
      configuration `i`, and for user `i`'s amount. */
  lemma {:induction false} GeneratedClaimMember(allClaimTypes: seq<ClaimType>, users: seq<string>, digest: nat -> nat, decimals: nat, c: Claim)
    requires ListsEveryType(allClaimTypes)
    ensures c in GenerateClaims(allClaimTypes, users, digest, decimals) <==>
      exists i :: 0 <= i < |users| && c.account == users[i] && c.claimType in Configuration(allClaimTypes, i)
        && c.claimableAmount == PseudorandomAmount(digest, decimals, i)
  {
    var blocks := seq(|users|, i requires 0 <= i < |users| => UserClaims(allClaimTypes, users[i], i, digest, decimals));
    FlattenMember(blocks, c);
    if c in GenerateClaims(allClaimTypes, users, digest, decimals) {
      var i :| 0 <= i < |blocks| && c in blocks[i];
      var k :| 0 <= k < |blocks[i]| && blocks[i][k] == c;
      assert c.claimType == Configuration(allClaimTypes, i)[k];
    }
    if exists i :: 0 <= i < |users| && c.account == users[i] && c.claimType in Configuration(allClaimTypes, i)
        && c.claimableAmount == PseudorandomAmount(digest, decimals, i) {
      var i :| 0 <= i < |users| && c.account == users[i] && c.claimType in Configuration(allClaimTypes, i)
        && c.claimableAmount == PseudorandomAmount(digest, decimals, i);
      var k :| 0 <= k < |Configuration(allClaimTypes, i)| && Configuration(allClaimTypes, i)[k] == c.claimType;
      assert blocks[i][k] == c;
    }
  }

  // ---------------------------------------------------------------------------
  // Prices
  // ---------------------------------------------------------------------------

  function Abs(x: int): nat
  {
    if x < 0 then -x else x
  }

  /** `BigNumber.div`: the quotient truncated toward zero; division by zero throws. */
  function TruncDiv(a: int, b: int): (r: Result<int>)
    ensures r.Err? <==> b == 0
  {
    if b == 0 then Err("division-by-zero")
    else
      var q := Abs(a) / Abs(b);
      Ok(if (a < 0) != (b < 0) then -q else q)
  }

  lemma DivMod(x: nat, y: nat)
    requires y > 0
    ensures x == (x / y) * y + x % y && x % y < y
  {
  }

  /** The truncated quotient leaves a remainder smaller than the divisor and of
      the dividend's sign. */
  lemma {:induction false} TruncDivRemainder(a: int, b: int)
    requires b != 0
    ensures var q := TruncDiv(a, b).value;
      Abs(a - q * b) < Abs(b) && (a - q * b) * a >= 0 && Abs(q * b) <= Abs(a)
  {
    var mb := FloorMultiple(Abs(a), Abs(b));
    TruncProduct(a, b, Abs(a) / Abs(b));
    RemainderBounds(a, Abs(b), TruncDiv(a, b).value * b, mb);
  }

  /** `(x / y) * y` is the largest multiple of `y` not above `x`. */
  lemma FloorMultiple(x: nat, y: nat) returns (mb: int)
    requires y > 0
    ensures mb == (x / y) * y && 0 <= mb <= x < mb + y
  {
    DivMod(x, y);
    mb := (x / y) * y;
  }

  /** The truncated quotient times the divisor is the multiple `m * |b|` of the
      divisor, with the dividend's sign. */
  lemma TruncProduct(a: int, b: int, m: int)
    requires b != 0 && m == Abs(a) / Abs(b)
    ensures TruncDiv(a, b).value * b == if a < 0 then -(m * Abs(b)) else m * Abs(b)
  {
    SignedProduct(m, b, (a < 0) != (b < 0));
  }

  /** A product `p` of the dividend's sign and size `mb`, with `mb` the largest
      multiple of the divisor not above the dividend's size, leaves a remainder
      smaller than the divisor and of the dividend's sign. */
  lemma RemainderBounds(a: int, divisor: nat, p: int, mb: int)
    requires 0 <= mb <= Abs(a) < mb + divisor
    requires p == if a < 0 then -mb else mb
    ensures Abs(a - p) < divisor && (a - p) * a >= 0 && Abs(p) <= Abs(a)
  {
    SameSignProduct(a - p, a);
  }

  /** The product of `m` or `-m` with `b`, by the signs involved. */
  lemma SignedProduct(m: int, b: int, negate: bool)
    ensures (if negate then -m else m) * b == if negate != (b < 0) then -(m * Abs(b)) else m * Abs(b)
  {
    if negate && b < 0 {
      assert (-m) * b == m * (-b);
    } else if negate {
      assert (-m) * b == -(m * b);
    } else if b < 0 {
      assert m * b == -(m * (-b));
    }
  }

  /** Two numbers that are not of opposite signs have a non-negative product. */
  lemma SameSignProduct(x: int, y: int)
    requires (x >= 0 && y >= 0) || (x <= 0 && y <= 0)
    ensures x * y >= 0
  {
    if x <= 0 && y <= 0 {
      assert x * y == (-x) * (-y);
    }
  }

  /** The price of one whole token (`decimals` decimals) in COW base units,
      given the USDC prices of COW and of the token in USDC base units:
      `parseUnits("1", decimals).mul(usdcPerCow).div(usdcPerToken)`. */
  function TokenPrice(decimals: nat, usdcPerCow: int, usdcPerToken: int): (r: Result<int>)
  {
    TruncDiv(Pow10(decimals) * usdcPerCow, usdcPerToken)
  }

  /** For positive prices, the token price is the largest amount of COW base
      units worth no more USDC than one whole token; a zero token price fails. */
  lemma {:induction false} TokenPriceIsFloor(decimals: nat, usdcPerCow: int, usdcPerToken: int)
    ensures TokenPrice(decimals, usdcPerCow, usdcPerToken).Err? <==> usdcPerToken == 0
    ensures usdcPerCow >= 0 && usdcPerToken > 0 ==>
      var price := TokenPrice(decimals, usdcPerCow, usdcPerToken).value;
      && price >= 0
      && price * usdcPerToken <= Pow10(decimals) * usdcPerCow
      && Pow10(decimals) * usdcPerCow < (price + 1) * usdcPerToken
  {
    if usdcPerCow >= 0 && usdcPerToken > 0 {
      var a := Pow10(decimals) * usdcPerCow;
      assert a >= 0;
      TruncDivRemainder(a, usdcPerToken);
    }
  }
}
