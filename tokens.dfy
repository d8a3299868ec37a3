/** Payment-token addresses: the per-chain default tables, `defaultIfUnset`,
    and the way the two tasks pick the address of each payment token from
    their command-line arguments. Chain ids are the decimal text of the
    network's chain id, as the tasks compare them. */
module Tokens {
  import opened Wrappers

  /** The three payment tokens, keyed in the source by "usdc", "gno" and "weth". */
  datatype PaymentLabel = Usdc | Gno | Weth

  const PaymentLabels: seq<PaymentLabel> := [Usdc, Gno, Weth]

  function LabelName(token: PaymentLabel): string
  {
    match token
    case Usdc => "usdc"
    case Gno => "gno"
    case Weth => "weth"
  }

  /** The shared default table (`defaultTokens` of the constants file): mainnet,
      Rinkeby, Goerli, Gnosis Chain and Sepolia. */
  function SharedDefaults(token: PaymentLabel): map<string, string>
  {
    match token
    case Usdc =>
      map["1" := "0xA0b86991c6218b36c1d19D4a2e9Eb0cE3606eB48",
          "4" := "0x4DBCdF9B62e891a7cec5A2568C3F4FAF9E8Abe2b",
          "5" := "0xD87Ba7A50B2E7E660f678A895E4B72E7CB4CCd9C",
          "100" := "0xDDAfbb505ad214D7b80b1f830fcCc89B60fb7A83",
          "11155111" := "0xbe72E441BF55620febc26715db68d3494213D8Cb"]
    case Weth =>
      map["1" := "0xC02aaA39b223FE8D0A0e5C4F27eAD9083C756Cc2",
          "4" := "0xc778417E063141139Fce010982780140Aa0cD5Ab",
          "5" := "0xB4FBF271143F4FBf7B91A5ded31805e42b2208d6",
          "100" := "0xe91D153E0b41518A2Ce8Dd3D7944Fa863463a97d",
          "11155111" := "0xfFf9976782d46CC05630D1f6eBAb18b2324d6B14"]
    case Gno =>
      map["1" := "0x6810e776880C02933D47DB1b9fc05908e5386b96",
          "4" := "0xd0Dab4E640D95E9E8A47545598c33e31bDb53C7c",
          "5" := "0x02ABBDbAaa7b1BB64B5c878f7ac17f8DDa169532",
          "100" := "0x9C58BAcC331c9aa871AFD802DB6379a98e80CEdb",
          "11155111" := "0xd3f3d46FeBCD4CdAa2B83799b7A5CdcB69d135De"]
  }

  /** The test-deployment task's own table, which only knows Rinkeby. */
  function TestDeploymentDefaults(token: PaymentLabel): map<string, string>
  {
    match token
    case Usdc => map["4" := "0x4DBCdF9B62e891a7cec5A2568C3F4FAF9E8Abe2b"]
    case Weth => map["4" := "0xc778417E063141139Fce010982780140Aa0cD5Ab"]
    case Gno => map["4" := "0xd0Dab4E640D95E9E8A47545598c33e31bDb53C7c"]
  }

  /** `defaultIfUnset`: the address given on the command line if there is one,
      otherwise the chain's default; an error when there is neither. */
  function DefaultIfUnset(address: Option<string>, token: PaymentLabel, defaults: map<string, string>, chainId: string): (r: Result<string>)
    ensures r.Err? <==> address.None? && chainId !in defaults
    ensures address.Some? ==> r == Ok(address.value)
    ensures address.None? && chainId in defaults ==> r == Ok(defaults[chainId])
  {
    if address.None? && chainId !in defaults then
      Err("Chain id " + chainId + " does not have a default address for " + LabelName(token))
    else
      Ok(if address.Some? then address.value else defaults[chainId])
  }

  /** A chain without a default entry still accepts an explicit address, and a
      chain with one ignores its default when an address is given. */
  lemma ExplicitAddressWins(address: string, token: PaymentLabel, defaults: map<string, string>, chainId: string)
    ensures DefaultIfUnset(Some(address), token, defaults, chainId) == Ok(address)
  {
  }

  /** The test-deployment task resolves USDC, GNO and WETH in this order; the
      first token without an address and without a default raises the error. */
  function TestDeploymentTokens(usdcToken: Option<string>, gnoToken: Option<string>, wethToken: Option<string>, chainId: string): (r: Result<(string, string, string)>)
    ensures r.Ok? <==>
      && DefaultIfUnset(usdcToken, Usdc, TestDeploymentDefaults(Usdc), chainId).Ok?
      && DefaultIfUnset(gnoToken, Gno, TestDeploymentDefaults(Gno), chainId).Ok?
      && DefaultIfUnset(wethToken, Weth, TestDeploymentDefaults(Weth), chainId).Ok?
  {
    var usdc := DefaultIfUnset(usdcToken, Usdc, TestDeploymentDefaults(Usdc), chainId);
    var gno := DefaultIfUnset(gnoToken, Gno, TestDeploymentDefaults(Gno), chainId);
    var weth := DefaultIfUnset(wethToken, Weth, TestDeploymentDefaults(Weth), chainId);
    if usdc.Err? then Err(usdc.message)
    else if gno.Err? then Err(gno.message)
    else if weth.Err? then Err(weth.message)
    else Ok((usdc.value, gno.value, weth.value))
  }

  /** Off Rinkeby the test deployment needs all three addresses on the command
      line; on Rinkeby every missing one falls back to the table. */
  lemma TestDeploymentNeedsAddressesOffRinkeby(usdcToken: Option<string>, gnoToken: Option<string>, wethToken: Option<string>, chainId: string)
    ensures TestDeploymentTokens(usdcToken, gnoToken, wethToken, chainId).Ok?
      <==> chainId == "4" || (usdcToken.Some? && gnoToken.Some? && wethToken.Some?)
  {
  }

  /** The mass-claim task's token arguments. */
  datatype MassClaimTokenArgs = MassClaimTokenArgs(
    usdcToken: Option<string>,
    gnoToken: Option<string>,
    wethToken: Option<string>,
    payUsdc: bool,
    payGno: bool,
    payWeth: bool)

  function TokenArg(args: MassClaimTokenArgs, token: PaymentLabel): Option<string>
  {
    match token
    case Usdc => args.usdcToken
    case Gno => args.gnoToken
    case Weth => args.wethToken
  }

  function PayFlag(args: MassClaimTokenArgs, token: PaymentLabel): bool
  {
    match token
    case Usdc => args.payUsdc
    case Gno => args.payGno
    case Weth => args.payWeth
  }

  /** The addresses of the tokens the payer pays with, resolved label by label
      in the order of `labels`, with `addressArg` as the command-line override of
      each label and `defaults` as its per-chain table (the task uses
      `SharedDefaults`); the first label that cannot be resolved raises the error. */
  function ResolvePaymentTokens(labels: seq<PaymentLabel>, args: MassClaimTokenArgs, addressArg: PaymentLabel -> Option<string>,
                                defaults: PaymentLabel -> map<string, string>, chainId: string): (r: Result<map<PaymentLabel, string>>)
    ensures r.Err? <==> exists token :: token in labels && PayFlag(args, token) && DefaultIfUnset(addressArg(token), token, defaults(token), chainId).Err?
    ensures r.Ok? ==> r.value.Keys == set token | token in labels && PayFlag(args, token)
    ensures r.Ok? ==> forall token :: token in r.value ==> Ok(r.value[token]) == DefaultIfUnset(addressArg(token), token, defaults(token), chainId)
  {
    if labels == [] then Ok(map[])
    else
      var token := labels[0];
      var rest := ResolvePaymentTokens(labels[1..], args, addressArg, defaults, chainId);
      if !PayFlag(args, token) then rest
      else
        var address := DefaultIfUnset(addressArg(token), token, defaults(token), chainId);
        if address.Err? then Err(address.message)
        else if rest.Err? then rest
        else Ok(rest.value[token := address.value])
  }

  /** The payment tokens as the mass-claim task resolves them: every label is
      handed the USDC argument as its override. */
  function MassClaimPaymentTokens(args: MassClaimTokenArgs, defaults: PaymentLabel -> map<string, string>, chainId: string): (r: Result<map<PaymentLabel, string>>)
    ensures r.Ok? ==> r.value.Keys == set token | token in PaymentLabels && PayFlag(args, token)
  {
    ResolvePaymentTokens(PaymentLabels, args, _ => args.usdcToken, defaults, chainId)
  }

  /** A GNO address given on the command line is ignored when a USDC address is
      given too: whatever the chain and its table, the GNO payment token
      resolves to the USDC address. */
  lemma MassClaimUsesUsdcAddressForGno(defaults: PaymentLabel -> map<string, string>, chainId: string)
    ensures MassClaimPaymentTokens(MassClaimTokenArgs(Some("0xUSDC"), Some("0xGNO"), None, false, true, false), defaults, chainId)
      == Ok(map[Gno := "0xUSDC"])
  {
    var args := MassClaimTokenArgs(Some("0xUSDC"), Some("0xGNO"), None, false, true, false);
    var r := MassClaimPaymentTokens(args, defaults, chainId);
    AllLabelsListed(Gno);
    assert r.Ok?;
    assert r.value.Keys == {Gno};
    assert r.value[Gno] == "0xUSDC";
    assert r.value == map[Gno := "0xUSDC"];
  }

  /** The payment tokens with each label resolved from its own argument. */
  function CorrectedPaymentTokens(args: MassClaimTokenArgs, defaults: PaymentLabel -> map<string, string>, chainId: string): (r: Result<map<PaymentLabel, string>>)
    ensures r.Ok? ==> r.value.Keys == set token | token in PaymentLabels && PayFlag(args, token)
  {
    ResolvePaymentTokens(PaymentLabels, args, token => TokenArg(args, token), defaults, chainId)
  }

  lemma AllLabelsListed(token: PaymentLabel)
    ensures token in PaymentLabels
  {
    assert PaymentLabels[0] == Usdc && PaymentLabels[1] == Gno && PaymentLabels[2] == Weth;
  }

  /** With the correction, resolution fails exactly when some paid token has
      neither a command-line address nor a chain default. */
  lemma CorrectedFailsOnlyWithoutAddress(args: MassClaimTokenArgs, defaults: PaymentLabel -> map<string, string>, chainId: string)
    ensures CorrectedPaymentTokens(args, defaults, chainId).Err?
      <==> exists token :: PayFlag(args, token) && TokenArg(args, token).None? && chainId !in defaults(token)
  {
    var addressArg := token => TokenArg(args, token);
    var r := ResolvePaymentTokens(PaymentLabels, args, addressArg, defaults, chainId);
    if r.Err? {
      var token :| token in PaymentLabels && PayFlag(args, token) && DefaultIfUnset(addressArg(token), token, defaults(token), chainId).Err?;
      assert TokenArg(args, token).None? && chainId !in defaults(token);
    }
    if exists token :: PayFlag(args, token) && TokenArg(args, token).None? && chainId !in defaults(token) {
      var token :| PayFlag(args, token) && TokenArg(args, token).None? && chainId !in defaults(token);
      AllLabelsListed(token);
      assert DefaultIfUnset(addressArg(token), token, defaults(token), chainId).Err?;
    }
  }

  /** The chains the shared default table knows. */
  const SharedChains: set<string> := {"1", "4", "5", "100", "11155111"}

  /** With the shared table and the correction, the mass-claim task needs no
      address on the command line on the chains the table knows; on any other
      chain it fails exactly when a paid token has no address given. */
  lemma SharedDefaultsResolve(args: MassClaimTokenArgs, chainId: string)
    ensures CorrectedPaymentTokens(args, SharedDefaults, chainId).Err?
      <==> chainId !in SharedChains && exists token :: PayFlag(args, token) && TokenArg(args, token).None?
  {
    CorrectedFailsOnlyWithoutAddress(args, SharedDefaults, chainId);
    SharedDefaultsKnow(Usdc, chainId);
    SharedDefaultsKnow(Gno, chainId);
    SharedDefaultsKnow(Weth, chainId);
  }

  lemma SharedDefaultsKnow(token: PaymentLabel, chainId: string)
    ensures chainId in SharedDefaults(token) <==> chainId in SharedChains
  {
    match token
    case Usdc =>
    case Gno =>
    case Weth =>
  }

  /** With the correction, every paid token given on the command line gets the
      given address and every other paid token its chain default. */
  lemma CorrectedHonoursEachArgument(args: MassClaimTokenArgs, defaults: PaymentLabel -> map<string, string>, chainId: string, token: PaymentLabel)
    requires CorrectedPaymentTokens(args, defaults, chainId).Ok? && PayFlag(args, token)
    ensures var tokens := CorrectedPaymentTokens(args, defaults, chainId).value;
      token in tokens && tokens[token] == if TokenArg(args, token).Some? then TokenArg(args, token).value else defaults(token)[chainId]
  {
    AllLabelsListed(token);
    var addressArg := token => TokenArg(args, token);
    assert addressArg(token) == TokenArg(args, token);
  }
}
