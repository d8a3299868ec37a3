/** Claim records as the distribution scripts see them: a plain claim, a claim
    with its Merkle index and proof, and a claim ready to be executed. The
    Merkle tree itself is not part of this model: `index` and `proof` are
    opaque values handed over by the tree builder. */
module Claims {
  import opened Wrappers

  datatype ClaimType = Airdrop | GnoOption | UserOption | Investor | Team

  /** Every claim type, in declaration order (`allClaimTypes`). */
  const AllClaimTypes: seq<ClaimType> := [Airdrop, GnoOption, UserOption, Investor, Team]

  datatype Claim = Claim(account: string, claimType: ClaimType, claimableAmount: nat)

  datatype ProvenClaim = ProvenClaim(
    account: string,
    claimType: ClaimType,
    claimableAmount: nat,
    index: nat,
    proof: seq<string>)

  datatype ExecutableClaim = ExecutableClaim(
    account: string,
    claimType: ClaimType,
    claimableAmount: nat,
    index: nat,
    proof: seq<string>,
    claimedAmount: nat)

  /** The name that TypeScript's reverse enum lookup `ClaimType[t]` yields. */
  function TypeLabel(t: ClaimType): string
  {
    match t
    case Airdrop => "Airdrop"
    case GnoOption => "GnoOption"
    case UserOption => "UserOption"
    case Investor => "Investor"
    case Team => "Team"
  }

  /** The claim type a label names, if any. */
  function ParseTypeLabel(s: string): Option<ClaimType>
  {
    if s == "Airdrop" then Some(Airdrop)
    else if s == "GnoOption" then Some(GnoOption)
    else if s == "UserOption" then Some(UserOption)
    else if s == "Investor" then Some(Investor)
    else if s == "Team" then Some(Team)
    else None
  }

  lemma TypeLabelRoundTrip(t: ClaimType)
    ensures ParseTypeLabel(TypeLabel(t)) == Some(t)
  {
  }

  predicate IsDigit(c: char)
  {
    '0' <= c <= '9'
  }

  predicate AllDigits(s: string)
  {
    forall i :: 0 <= i < |s| ==> IsDigit(s[i])
  }

  function DigitChar(d: nat): (c: char)
    requires d < 10
    ensures IsDigit(c) && (c == '0' <==> d == 0)
  {
    (48 + d) as char
  }

  /** The decimal text of a non-negative integer (`BigNumber.toString()`):
      digits only, and a leading zero only for zero itself. */
  function Decimal(n: nat): (s: string)
    ensures |s| >= 1 && AllDigits(s)
    ensures s[0] == '0' <==> n == 0
  {
    if n < 10 then [DigitChar(n)] else Decimal(n / 10) + [DigitChar(n % 10)]
  }

  /** The value of a string of decimal digits. */
  function DecimalValue(s: string): nat
    requires AllDigits(s)
  {
    if |s| == 0 then 0
    else 10 * DecimalValue(s[..|s| - 1]) + (s[|s| - 1] as int - 48)
  }

  /** Reading back the decimal text of `n` gives `n`. */
  lemma {:induction false} DecimalRoundTrip(n: nat)
    ensures DecimalValue(Decimal(n)) == n
  {
    if n >= 10 {
      DecimalRoundTrip(n / 10);
      var s := Decimal(n);
      assert s[..|s| - 1] == Decimal(n / 10);
    }
  }
}
