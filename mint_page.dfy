/**
 * The mint page (app/page.tsx): the supply figures derived from the indexer
 * and from on-chain reads, the collect checks of the two mint buttons in
 * their order, the wei sent with a mint, the error messages, and the image
 * taken from the edition's token URI. The page's mutable state is a class
 * whose methods are the handlers and effects.
 */
module MintPage {
  import opened Wrappers
  import opened Text
  import opened JsonValues
  import opened TokenUri
  import opened Ether

  /** A count that may be unlimited (JavaScript `Infinity`). */
  datatype Bound = Finite(n: nat) | Unbounded

  /** `String(bound)` as the count display writes it: `∞` when unlimited. */
  function BoundText(b: Bound): (t: string)
    ensures NoChar(t, '/')
  {
    match b
    case Unbounded => "∞"
    case Finite(n) => NatToString(n)
  }

  // ----- the edition's supply -----

  /** `edition?.totalSupply ? Number(edition.totalSupply) : 0` */
  function Minted(totalSupply: Option<nat>): (m: nat)
    ensures totalSupply.None? ==> m == 0
    ensures totalSupply.Some? ==> m == totalSupply.value
  {
    match totalSupply
    case None => 0
    case Some(n) => n
  }

  /** `edition?.editionSize ? Number(edition.editionSize) : Infinity`: a present "0" is a size of 0. */
  function EditionSize(editionSize: Option<nat>): (b: Bound)
    ensures b.Unbounded? <==> editionSize.None?
    ensures editionSize.Some? ==> b == Finite(editionSize.value)
  {
    match editionSize
    case None => Unbounded
    case Some(n) => Finite(n)
  }

  /** `Math.max(0, editionSize - minted)` */
  function Remaining(size: Bound, minted: nat): (r: Bound)
    ensures size.Unbounded? <==> r.Unbounded?
    ensures size.Finite? && minted <= size.n ==> r == Finite(size.n - minted)
    ensures size.Finite? && minted >= size.n ==> r == Finite(0)
  {
    match size
    case Unbounded => Unbounded
    case Finite(n) => if minted < n then Finite(n - minted) else Finite(0)
  }

  /** `minted >= editionSize`: an unlimited edition is never sold out. */
  predicate IsSoldOut(minted: nat, size: Bound)
    ensures IsSoldOut(minted, size) ==> size.Finite?
  {
    size.Finite? && minted >= size.n
  }

  /** Nothing remains exactly when the edition is sold out. */
  lemma RemainingZeroIffSoldOut(minted: nat, size: Bound)
    ensures Remaining(size, minted) == Finite(0) <==> IsSoldOut(minted, size)
  {
    if size.Finite? && minted < size.n {
      assert Remaining(size, minted).n > 0;
    }
  }

  /** `${minted}/${editionSize === Infinity ? "∞" : editionSize}` */
  function CountDisplay(minted: nat, size: Bound): string {
    NatToString(minted) + "/" + BoundText(size)
  }

  /** The display splits at its one '/' into the minted count and the size. */
  lemma CountDisplayFields(minted: nat, size: Bound)
    ensures Split(CountDisplay(minted, size), '/') == [NatToString(minted), BoundText(size)]
  {
    var m := NatToString(minted);
    assert NoChar(m, '/') by {
      forall i | 0 <= i < |m| ensures m[i] != '/' {
        assert IsDigit(m[i]);
      }
    }
    SplitAtFirst(m, '/', BoundText(size));
    SplitNoSep(BoundText(size), '/');
    assert CountDisplay(minted, size) == m + ['/'] + BoundText(size);
  }

  // ----- per-wallet limit and the collect button -----

  /**
   * `maxMintAllowed`: when the per-address maximum read is non-zero, what is
   * left of it after this wallet's mint count (never below 0); otherwise unlimited.
   */
  function MaxMintAllowed(maxMintPerAddress: Option<nat>, mintCount: Option<nat>): (r: Bound)
    ensures r.Unbounded? <==> maxMintPerAddress.None? || maxMintPerAddress.value == 0
    ensures r.Finite? ==> r.n <= maxMintPerAddress.value
    ensures r.Finite? ==> r.n + Minted(mintCount) == maxMintPerAddress.value
                          || (r.n == 0 && Minted(mintCount) >= maxMintPerAddress.value)
  {
    match maxMintPerAddress
    case None => Unbounded
    case Some(max) =>
      if max == 0 then Unbounded
      else
        var count := Minted(mintCount);
        if count < max then Finite(max - count) else Finite(0)
  }

  /** `maxMintAllowed === 0` */
  predicate IsMaxMintReached(maxMintPerAddress: Option<nat>, mintCount: Option<nat>)
    ensures IsMaxMintReached(maxMintPerAddress, mintCount) <==>
      (maxMintPerAddress.Some? && maxMintPerAddress.value != 0 && Minted(mintCount) >= maxMintPerAddress.value)
  {
    MaxMintAllowed(maxMintPerAddress, mintCount) == Finite(0)
  }

  /**
   * `canCollect`: always with no wallet connected (the button then asks to
   * connect); otherwise a public mint or a whitelist token, the wallet's
   * limit not reached and the edition not sold out.
   */
  predicate CanCollect(isConnected: bool, whitelistCount: nat, hasWhitelistToken: Option<bool>,
                       maxReached: bool, soldOut: bool)
    ensures !isConnected ==> CanCollect(isConnected, whitelistCount, hasWhitelistToken, maxReached, soldOut)
  {
    !isConnected || ((whitelistCount == 0 || hasWhitelistToken == Some(true)) && !maxReached && !soldOut)
  }

  /**
   * For a connected wallet, the button in terms of the page's reads: a public
   * mint or a whitelist token, the wallet's mint count below the maximum
   * unless that is missing or 0, and fewer minted than the edition size
   * unless the size is missing.
   */
  lemma CanCollectConnected(whitelistCount: nat, hasWhitelistToken: Option<bool>,
                            maxMintPerAddress: Option<nat>, mintCount: Option<nat>,
                            totalSupply: Option<nat>, editionSize: Option<nat>)
    ensures CanCollect(true, whitelistCount, hasWhitelistToken, IsMaxMintReached(maxMintPerAddress, mintCount),
                       IsSoldOut(Minted(totalSupply), EditionSize(editionSize)))
      <==> (whitelistCount == 0 || hasWhitelistToken == Some(true))
           && (maxMintPerAddress.None? || maxMintPerAddress.value == 0 || Minted(mintCount) < maxMintPerAddress.value)
           && (editionSize.None? || Minted(totalSupply) < editionSize.value)
  {
  }

  /**
   * What the button blocks for its supply or limit, the handler rejects too
   * when its fresh reads agree with the page's: the two checks are the same
   * conditions.
   */
  lemma ButtonBlockedCollectRejected(minted: nat, size: Bound, maxMintPerAddress: nat, mintCount: nat,
                                     isFreeMint: bool, priceEth: string)
    requires IsSoldOut(minted, size) || IsMaxMintReached(Some(maxMintPerAddress), Some(mintCount))
    ensures CollectDecision(true, Returned(false), Remaining(size, minted), Returned(mintCount),
                            Returned(maxMintPerAddress), isFreeMint, priceEth).Rejected?
  {
    RemainingZeroIffSoldOut(minted, size);
  }

  // ----- the value sent -----

  const LaunchpadFee: string := "0.0004"
  const ContractAddress: string := "0x7f19732c1ad9c25e604e3649638c1486f53e5c35"

  /** The fee in wei, 4 * 10^14. */
  const LaunchpadFeeWei: nat := 400_000_000_000_000

  lemma LaunchpadFeeParses()
    ensures ParseEther(LaunchpadFee) == Some(LaunchpadFeeWei)
  {
    FeeWei();
  }

  /**
   * `parseEther(isFreeMint ? "0" : priceEth) + parseEther("0.0004")`; None
   * when `parseEther` throws. The fee is added to free mints as well.
   */
  function MintValueWei(isFreeMint: bool, priceEth: string): (r: Option<nat>)
    ensures isFreeMint ==> r == Some(LaunchpadFeeWei)
    ensures !isFreeMint ==> r == (match ParseEther(priceEth) case None => None case Some(p) => Some(p + LaunchpadFeeWei))
  {
    LaunchpadFeeParses();
    ParseWholeEther("0");
    assert DigitsVal("0") == 0 by { assert "0"[..0] == ""; }
    var base := ParseEther(if isFreeMint then "0" else priceEth);
    var fee := ParseEther(LaunchpadFee);
    if base.None? || fee.None? then None else Some(base.value + fee.value)
  }

  /** A price written the way `formatEther` writes it is charged exactly, plus the fee. */
  lemma FormattedPriceCharged(priceWei: nat)
    ensures MintValueWei(false, FormatEther(priceWei)) == Some(priceWei + LaunchpadFeeWei)
  {
    ParseFormatEther(priceWei);
    ParsedPriceCharged(FormatEther(priceWei), priceWei);
  }

  /** Any price `parseEther` reads as `wei` is charged `wei` plus the fee. */
  lemma ParsedPriceCharged(priceEth: string, wei: nat)
    requires ParseEther(priceEth) == Some(wei)
    ensures MintValueWei(false, priceEth) == Some(wei + LaunchpadFeeWei)
  {
  }

  // ----- the collect handlers -----

  /** A `collectBatch(1)` call sent with `writeContract`. */
  datatype CollectCall = CollectCall(address: string, quantity: nat, valueWei: nat)

  datatype CollectOutcome = Rejected(message: string) | Submitted(call: CollectCall)

  const ConnectWallet: string := "Please connect your wallet!"
  const MintFailed: string := "Failed to validate mint conditions. Please try again."
  const WhitelistMintFailed: string := "Failed to validate whitelist mint conditions. Please try again."

  /**
   * `handleCollect` up to `writeContract`: the wallet, then the paused read,
   * then the indexer's remaining supply, then the wallet's mint count and the
   * per-address maximum (an unclamped difference), then the wei value. A read
   * or `parseEther` that throws ends in the generic message.
   */
  function CollectDecision(isConnected: bool, paused: Call<bool>, remaining: Bound,
                           mintCount: Call<nat>, maxPerAddress: Call<nat>,
                           isFreeMint: bool, priceEth: string): (r: CollectOutcome)
    ensures !isConnected ==> r == Rejected(ConnectWallet)
    ensures isConnected && paused.Threw? ==> r == Rejected(MintFailed)
    ensures isConnected && paused == Returned(true) ==> r == Rejected("Minting is paused for this edition.")
    ensures r.Submitted? ==>
      isConnected && paused == Returned(false) && remaining != Finite(0)
      && mintCount.Returned? && maxPerAddress.Returned?
      && (maxPerAddress.value == 0 || mintCount.value < maxPerAddress.value)
      && MintValueWei(isFreeMint, priceEth).Some?
      && r.call == CollectCall(ContractAddress, 1, MintValueWei(isFreeMint, priceEth).value)
    ensures isConnected && paused == Returned(false) && remaining == Finite(0) ==> r == Rejected("No tokens remain!")
    ensures isConnected && paused == Returned(false) && remaining != Finite(0) && (mintCount.Threw? || maxPerAddress.Threw?)
      ==> r == Rejected(MintFailed)
    ensures isConnected && paused == Returned(false) && remaining != Finite(0)
      && mintCount.Returned? && maxPerAddress.Returned?
      && maxPerAddress.value != 0 && mintCount.value >= maxPerAddress.value
      ==> r == Rejected("You have reached the maximum mint limit for this wallet.")
    ensures isConnected && paused == Returned(false) && remaining != Finite(0)
      && mintCount.Returned? && maxPerAddress.Returned?
      && (maxPerAddress.value == 0 || mintCount.value < maxPerAddress.value)
      ==> r == (match MintValueWei(isFreeMint, priceEth)
                case None => Rejected(MintFailed)
                case Some(value) => Submitted(CollectCall(ContractAddress, 1, value)))
  {
    if !isConnected then Rejected(ConnectWallet)
    else match paused
      case Threw => Rejected(MintFailed)
      case Returned(isPaused) =>
        if isPaused then Rejected("Minting is paused for this edition.")
        else if remaining.Finite? && remaining.n < 1 then Rejected("No tokens remain!")
        else match (mintCount, maxPerAddress)
          case (Returned(count), Returned(max)) =>
            if max != 0 && max as int - count as int < 1 then Rejected("You have reached the maximum mint limit for this wallet.")
            else (match MintValueWei(isFreeMint, priceEth)
              case None => Rejected(MintFailed)
              case Some(value) => Submitted(CollectCall(ContractAddress, 1, value)))
          case _ => Rejected(MintFailed)
  }

  /** A sold-out edition is refused before the wallet's reads, whatever they return. */
  lemma SoldOutRejected(minted: nat, size: Bound, mintCount: Call<nat>, maxPerAddress: Call<nat>,
                        isFreeMint: bool, priceEth: string)
    requires IsSoldOut(minted, size)
    ensures CollectDecision(true, Returned(false), Remaining(size, minted), mintCount, maxPerAddress, isFreeMint, priceEth)
         == Rejected("No tokens remain!")
  {
    RemainingZeroIffSoldOut(minted, size);
  }

  /** A free mint that passes every check sends exactly the launchpad fee. */
  lemma FreeMintSendsFee(remaining: Bound, mintCount: Call<nat>, maxPerAddress: Call<nat>, priceEth: string)
    requires CollectDecision(true, Returned(false), remaining, mintCount, maxPerAddress, true, priceEth).Submitted?
    ensures CollectDecision(true, Returned(false), remaining, mintCount, maxPerAddress, true, priceEth).call.valueWei
         == LaunchpadFeeWei
  {
  }

  /**
   * `handleCollectWhitelistToken` up to `writeContract`: the wallet, the
   * paused read, then the contract's own total supply against its edition
   * size, then the wei value, sent to the whitelist contract itself.
   */
  function WhitelistCollectDecision(isConnected: bool, contractAddress: string, paused: Call<bool>,
                                    totalSupply: Call<nat>, editionSize: Call<nat>,
                                    priceEth: string, isFreeMint: bool): (r: CollectOutcome)
    ensures !isConnected ==> r == Rejected(ConnectWallet)
    ensures isConnected && paused == Returned(true) ==> r == Rejected("Minting is paused for this whitelist contract.")
    ensures r.Submitted? ==>
      paused == Returned(false) && totalSupply.Returned? && editionSize.Returned?
      && totalSupply.value < editionSize.value
      && MintValueWei(isFreeMint, priceEth).Some?
      && r.call == CollectCall(contractAddress, 1, MintValueWei(isFreeMint, priceEth).value)
    ensures isConnected && (paused.Threw? || (paused == Returned(false) && (totalSupply.Threw? || editionSize.Threw?)))
      ==> r == Rejected(WhitelistMintFailed)
    ensures isConnected && paused == Returned(false) && totalSupply.Returned? && editionSize.Returned?
      && totalSupply.value >= editionSize.value
      ==> r == Rejected("This whitelist contract is sold out!")
    ensures isConnected && paused == Returned(false) && totalSupply.Returned? && editionSize.Returned?
      && totalSupply.value < editionSize.value
      ==> r == (match MintValueWei(isFreeMint, priceEth)
                case None => Rejected(WhitelistMintFailed)
                case Some(value) => Submitted(CollectCall(contractAddress, 1, value)))
  {
    if !isConnected then Rejected(ConnectWallet)
    else match paused
      case Threw => Rejected(WhitelistMintFailed)
      case Returned(isPaused) =>
        if isPaused then Rejected("Minting is paused for this whitelist contract.")
        else match (totalSupply, editionSize)
          case (Returned(supply), Returned(size)) =>
            if supply >= size then Rejected("This whitelist contract is sold out!")
            else (match MintValueWei(isFreeMint, priceEth)
              case None => Rejected(WhitelistMintFailed)
              case Some(value) => Submitted(CollectCall(contractAddress, 1, value)))
          case _ => Rejected(WhitelistMintFailed)
  }

  /** The message shown when the main collect transaction fails. */
  function CollectErrorMessage(error: string): (m: string)
    ensures Contains(error, "NotWhitelisted") ==> m == "You need a token from a whitelisted contract to mint!"
    ensures !Contains(error, "NotWhitelisted") && Contains(error, "InsufficientPayment") ==> m == "Insufficient ETH sent for minting!"
    ensures !Contains(error, "NotWhitelisted") && !Contains(error, "InsufficientPayment") ==> m == "Transaction failed!"
  {
    if Contains(error, "NotWhitelisted") then "You need a token from a whitelisted contract to mint!"
    else if Contains(error, "InsufficientPayment") then "Insufficient ETH sent for minting!"
    else "Transaction failed!"
  }

  /** The message shown when a whitelist collect transaction fails: only payment errors are named. */
  function WhitelistCollectErrorMessage(error: string): (m: string)
    ensures Contains(error, "InsufficientPayment") ==> m == "Insufficient ETH sent for minting!"
    ensures !Contains(error, "InsufficientPayment") ==> m == "Transaction failed!"
  {
    if Contains(error, "InsufficientPayment") then "Insufficient ETH sent for minting!" else "Transaction failed!"
  }

  /** The two mappings agree except that only the main one names the whitelist error. */
  lemma ErrorMessagesAgreeWithoutWhitelistError(error: string)
    ensures !Contains(error, "NotWhitelisted") ==> CollectErrorMessage(error) == WhitelistCollectErrorMessage(error)
    ensures Contains(error, "NotWhitelisted") ==> CollectErrorMessage(error) != WhitelistCollectErrorMessage(error)
  {
  }

  // ----- whitelist contracts -----

  /** A whitelisted edition as the indexer returns it. */
  datatype WhitelistEdition = WhitelistEdition(
    address: string, name: Option<string>, priceEth: Option<string>, isFreeMint: Option<bool>,
    editionSize: Option<string>, totalSupply: Option<string>, tokenURI: Option<string>)

  datatype WhitelistInfo = WhitelistInfo(
    address: string, name: Option<string>, priceEth: string, isFreeMint: bool,
    totalSupply: nat, editionSize: Bound, tokenURI: Option<string>)

  /** `Number(editionSize) || Infinity`: a size of 0, or none at all, is unlimited. */
  function WhitelistEditionSize(editionSize: Option<string>): (b: Bound)
    ensures b.Unbounded? <==> NumberOrZeroField(editionSize) == 0
    ensures b.Finite? ==> b.n == NumberOrZeroField(editionSize)
  {
    var n := NumberOrZeroField(editionSize);
    if n == 0 then Unbounded else Finite(n)
  }

  /** The on-chain total supply when it read as non-zero, else the indexer's, else 0. */
  function WhitelistTotalSupply(onChain: Option<nat>, indexed: Option<string>): (n: nat)
    ensures onChain.Some? && onChain.value != 0 ==> n == onChain.value
    ensures (onChain.None? || onChain.value == 0) ==> n == NumberOrZeroField(indexed)
  {
    if onChain.Some? && onChain.value != 0 then onChain.value else NumberOrZeroField(indexed)
  }

  /** One entry of `whitelistContractInfo`. */
  function WhitelistInfoOf(wc: WhitelistEdition, onChainSupply: Option<nat>): (r: WhitelistInfo)
    ensures r.address == wc.address
    ensures r.priceEth == OrElse(wc.priceEth, "0")
    ensures r.isFreeMint <==> wc.isFreeMint == Some(true)
    ensures r.totalSupply == WhitelistTotalSupply(onChainSupply, wc.totalSupply)
    ensures r.editionSize == WhitelistEditionSize(wc.editionSize)
    ensures r.name == wc.name
    ensures r.tokenURI.Some? <==> IsTruthy(wc.tokenURI)
    ensures r.tokenURI.Some? ==> r.tokenURI == wc.tokenURI
  {
    WhitelistInfo(wc.address, wc.name, OrElse(wc.priceEth, "0"), wc.isFreeMint == Some(true),
                  WhitelistTotalSupply(onChainSupply, wc.totalSupply), WhitelistEditionSize(wc.editionSize),
                  if IsTruthy(wc.tokenURI) then wc.tokenURI else None)
  }

  /** `whitelistTotalSupplyData[index]?.result`: missing past the end of the reads. */
  function SupplyRead(results: seq<Option<nat>>, i: nat): Option<nat> {
    if i < |results| then results[i] else None
  }

  function WhitelistInfos(contracts: seq<WhitelistEdition>, supplyReads: seq<Option<nat>>): (r: seq<WhitelistInfo>)
    ensures |r| == |contracts|
    ensures forall i | 0 <= i < |r| :: r[i] == WhitelistInfoOf(contracts[i], SupplyRead(supplyReads, i))
  {
    seq(|contracts|, i requires 0 <= i < |contracts| => WhitelistInfoOf(contracts[i], SupplyRead(supplyReads, i)))
  }

  /** A whitelist contract's collect button is disabled when `totalSupply >= editionSize`. */
  /** The popup's mint button, `disabled={contract.totalSupply >= contract.editionSize}` (app/page.tsx:580). */
  predicate WhitelistButtonDisabled(info: WhitelistInfo) {
    IsSoldOut(info.totalSupply, info.editionSize)
  }

  /** A size of "0" is a sold-out edition on the main page but unlimited for a whitelist contract. */
  lemma ZeroSizeReadDifferently(totalSupply: Option<nat>, wc: WhitelistEdition, onChainSupply: Option<nat>)
    requires wc.editionSize == Some("0")
    ensures IsSoldOut(Minted(totalSupply), EditionSize(Some(0)))
    ensures !WhitelistButtonDisabled(WhitelistInfoOf(wc, onChainSupply))
  {
    assert DigitsVal("0") == 0 by { assert "0"[..0] == ""; }
  }

  /** `results.some((hasToken) => hasToken)` over `Number(balance) > 0`. */
  predicate AnyPositive(balances: seq<nat>)
    ensures AnyPositive(balances) <==> exists i | 0 <= i < |balances| :: balances[i] > 0
  {
    if balances == [] then false
    else balances[0] > 0 || (assert forall i | 1 <= i < |balances| :: balances[i] == balances[1..][i - 1]; AnyPositive(balances[1..]))
  }

  const WhitelistCheckFailed: string := "Failed to verify whitelist status. Please try again."

  // ----- the token image -----

  const PlaceholderImage: string := "/placeholder.png"

  /**
   * The tokenURI effect: with a truthy URI carrying the JSON data prefix, a
   * truthy `image` replaces `imageUrl`, with no check that it is an SVG; a
   * decode or parse failure is caught and leaves `imageUrl` unchanged.
   */
  function ImageUrlAfterTokenURI(current: Json, tokenURI: Option<string>, parse: JsonParser): (r: Json)
    ensures r != current ==>
      IsTruthy(tokenURI) && StartsWith(tokenURI.value, JsonDataPrefix)
      && ReadImageField(tokenURI.value, parse) == ImageValue(r) && Truthy(r)
    ensures !IsTruthy(tokenURI) || !StartsWith(tokenURI.value, JsonDataPrefix) ==> r == current
    ensures IsTruthy(tokenURI) && StartsWith(tokenURI.value, JsonDataPrefix)
      && ReadImageField(tokenURI.value, parse).ImageValue? && Truthy(ReadImageField(tokenURI.value, parse).value)
      ==> r == ReadImageField(tokenURI.value, parse).value
  {
    if IsTruthy(tokenURI) && StartsWith(tokenURI.value, JsonDataPrefix) then
      match ReadImageField(tokenURI.value, parse)
      case ImageValue(v) => if Truthy(v) then v else current
      case _ => current
    else current
  }

  /** Every image `processTokenURI` accepts is also taken by the page. */
  lemma PageTakesProcessedImage(current: Json, uri: string, parse: JsonParser, image: string)
    requires ProcessTokenURI(uri, parse) == Some(image)
    ensures ImageUrlAfterTokenURI(current, Some(uri), parse) == JString(image)
  {
    assert |image| > 0 by {
      assert StartsWith(image, SvgDataPrefix);
    }
  }

  /** The page also takes a non-SVG image, which `processTokenURI` refuses. */
  lemma PageTakesNonSvgImage(current: Json, uri: string, parse: JsonParser, image: string)
    requires StartsWith(uri, JsonDataPrefix)
    requires ReadImageField(uri, parse) == ImageValue(JString(image))
    requires image != "" && !StartsWith(image, SvgDataPrefix)
    ensures ImageUrlAfterTokenURI(current, Some(uri), parse) == JString(image)
    ensures ProcessTokenURI(uri, parse) == None
  {
  }

  /**
   * The whitelist popup's image source: the metadata's `image` property
   * (possibly undefined), or the placeholder without a JSON data URI. This
   * decode has no `try`, so a failure throws out of rendering.
   */
  function PopupImageSource(tokenURI: Option<string>, parse: JsonParser): (r: Call<Property>)
    ensures !(IsTruthy(tokenURI) && StartsWith(tokenURI.value, JsonDataPrefix)) ==>
      r == Returned(Defined(JString(PlaceholderImage)))
    ensures r.Threw? <==>
      IsTruthy(tokenURI) && StartsWith(tokenURI.value, JsonDataPrefix)
      && ReadImageField(tokenURI.value, parse) == DecodeThrew
    ensures (IsTruthy(tokenURI) && StartsWith(tokenURI.value, JsonDataPrefix)
             && ReadImageField(tokenURI.value, parse).ImageValue?) ==>
      r == Returned(Defined(ReadImageField(tokenURI.value, parse).value))
    ensures (IsTruthy(tokenURI) && StartsWith(tokenURI.value, JsonDataPrefix)
             && ReadImageField(tokenURI.value, parse) == NoImage) ==> r == Returned(Undefined)
  {
    if IsTruthy(tokenURI) && StartsWith(tokenURI.value, JsonDataPrefix) then
      match ReadImageField(tokenURI.value, parse)
      case DecodeThrew => Threw
      case NoImage => Returned(Undefined)
      case ImageValue(v) => Returned(Defined(v))
    else Returned(Defined(JString(PlaceholderImage)))
  }

  // ----- the page's state -----

  /** The mint page's React state, with the handlers and effects that set it. */
  class PageState {
    var imageUrl: Json
    var errorMessage: Option<string>
    var hasWhitelistToken: Option<bool>
    var showWhitelistPopup: bool
    /** The `collectBatch` calls handed to `writeContract`, oldest first. */
    var submitted: seq<CollectCall>

    constructor ()
      ensures imageUrl == JString("") && errorMessage == None && hasWhitelistToken == None
      ensures !showWhitelistPopup && submitted == []
    {
      imageUrl := JString("");
      errorMessage := None;
      hasWhitelistToken := None;
      showWhitelistPopup := false;
      submitted := [];
    }

    /**
     * `checkWhitelistToken`: false without a wallet or whitelist contracts;
     * otherwise whether any balance is positive; when a balance read throws,
     * false and an error message.
     */
    method CheckWhitelistToken(hasWallet: bool, whitelistCount: nat, balances: Call<seq<nat>>)
      modifies this
      ensures !hasWallet || whitelistCount == 0 ==>
        hasWhitelistToken == Some(false) && errorMessage == old(errorMessage)
      ensures hasWallet && whitelistCount > 0 && balances.Returned? ==>
        hasWhitelistToken == Some(AnyPositive(balances.value)) && errorMessage == old(errorMessage)
      ensures hasWallet && whitelistCount > 0 && balances.Threw? ==>
        hasWhitelistToken == Some(false) && errorMessage == Some(WhitelistCheckFailed)
      ensures imageUrl == old(imageUrl) && showWhitelistPopup == old(showWhitelistPopup) && submitted == old(submitted)
    {
      if !hasWallet || whitelistCount == 0 {
        hasWhitelistToken := Some(false);
        return;
      }
      match balances
      case Returned(bs) =>
        hasWhitelistToken := Some(AnyPositive(bs));
      case Threw =>
        hasWhitelistToken := Some(false);
        errorMessage := Some(WhitelistCheckFailed);
    }

    /** `handleCollect`: either shows why it refused or submits the mint. */
    method HandleCollect(isConnected: bool, paused: Call<bool>, remaining: Bound,
                         mintCount: Call<nat>, maxPerAddress: Call<nat>, isFreeMint: bool, priceEth: string)
      modifies this
      ensures var d := CollectDecision(isConnected, paused, remaining, mintCount, maxPerAddress, isFreeMint, priceEth);
        (d.Rejected? ==> errorMessage == Some(d.message) && submitted == old(submitted))
        && (d.Submitted? ==> errorMessage == old(errorMessage) && submitted == old(submitted) + [d.call])
      ensures imageUrl == old(imageUrl) && hasWhitelistToken == old(hasWhitelistToken)
      ensures showWhitelistPopup == old(showWhitelistPopup)
    {
      match CollectDecision(isConnected, paused, remaining, mintCount, maxPerAddress, isFreeMint, priceEth)
      case Rejected(message) =>
        errorMessage := Some(message);
      case Submitted(call) =>
        submitted := submitted + [call];
    }

    /** `handleCollectWhitelistToken` */
    method HandleCollectWhitelistToken(isConnected: bool, contractAddress: string, paused: Call<bool>,
                                       totalSupply: Call<nat>, editionSize: Call<nat>,
                                       priceEth: string, isFreeMint: bool)
      modifies this
      ensures var d := WhitelistCollectDecision(isConnected, contractAddress, paused, totalSupply, editionSize, priceEth, isFreeMint);
        (d.Rejected? ==> errorMessage == Some(d.message) && submitted == old(submitted))
        && (d.Submitted? ==> errorMessage == old(errorMessage) && submitted == old(submitted) + [d.call])
      ensures imageUrl == old(imageUrl) && hasWhitelistToken == old(hasWhitelistToken)
      ensures showWhitelistPopup == old(showWhitelistPopup)
    {
      match WhitelistCollectDecision(isConnected, contractAddress, paused, totalSupply, editionSize, priceEth, isFreeMint)
      case Rejected(message) =>
        errorMessage := Some(message);
      case Submitted(call) =>
        submitted := submitted + [call];
    }

    /** The main collect's `onError` */
    method OnCollectError(error: string)
      modifies this
      ensures errorMessage == Some(CollectErrorMessage(error))
      ensures imageUrl == old(imageUrl) && hasWhitelistToken == old(hasWhitelistToken)
      ensures showWhitelistPopup == old(showWhitelistPopup) && submitted == old(submitted)
    {
      errorMessage := Some(CollectErrorMessage(error));
    }

    /** The main collect's `onSuccess` */
    method OnCollectSuccess()
      modifies this
      ensures errorMessage == None
      ensures imageUrl == old(imageUrl) && hasWhitelistToken == old(hasWhitelistToken)
      ensures showWhitelistPopup == old(showWhitelistPopup) && submitted == old(submitted)
    {
      errorMessage := None;
    }

    /** A whitelist collect's `onError` */
    method OnWhitelistCollectError(error: string)
      modifies this
      ensures errorMessage == Some(WhitelistCollectErrorMessage(error))
      ensures imageUrl == old(imageUrl) && hasWhitelistToken == old(hasWhitelistToken)
      ensures showWhitelistPopup == old(showWhitelistPopup) && submitted == old(submitted)
    {
      errorMessage := Some(WhitelistCollectErrorMessage(error));
    }

    /** A whitelist collect's `onSuccess`: clear the error, close the popup, check the whitelist again. */
    method OnWhitelistCollectSuccess(hasWallet: bool, whitelistCount: nat, balances: Call<seq<nat>>)
      modifies this
      ensures !showWhitelistPopup
      ensures balances.Returned? || !hasWallet || whitelistCount == 0 ==> errorMessage == None
      ensures balances.Threw? && hasWallet && whitelistCount > 0 ==> errorMessage == Some(WhitelistCheckFailed)
      ensures hasWhitelistToken == Some(hasWallet && whitelistCount > 0 && balances.Returned? && AnyPositive(balances.value))
      ensures imageUrl == old(imageUrl) && submitted == old(submitted)
    {
      errorMessage := None;
      showWhitelistPopup := false;
      CheckWhitelistToken(hasWallet, whitelistCount, balances);
    }

    /** The `writeError` effect. */
    method OnWriteError(message: string)
      modifies this
      ensures errorMessage == Some("Transactionarm failed: " + message)
      ensures imageUrl == old(imageUrl) && hasWhitelistToken == old(hasWhitelistToken)
      ensures showWhitelistPopup == old(showWhitelistPopup) && submitted == old(submitted)
    {
      errorMessage := Some("Transactionarm failed: " + message);
    }

    /** "Get Whitelist Token" opens the popup; its close button and backdrop close it. */
    method SetWhitelistPopup(open: bool)
      modifies this
      ensures showWhitelistPopup == open
      ensures imageUrl == old(imageUrl) && hasWhitelistToken == old(hasWhitelistToken)
      ensures errorMessage == old(errorMessage) && submitted == old(submitted)
    {
      showWhitelistPopup := open;
    }

    /** The effect on the edition's first token URI. */
    method ApplyTokenURI(tokenURI: Option<string>, parse: JsonParser)
      modifies this
      ensures imageUrl == ImageUrlAfterTokenURI(old(imageUrl), tokenURI, parse)
      ensures errorMessage == old(errorMessage) && hasWhitelistToken == old(hasWhitelistToken)
      ensures showWhitelistPopup == old(showWhitelistPopup) && submitted == old(submitted)
    {
      imageUrl := ImageUrlAfterTokenURI(imageUrl, tokenURI, parse);
    }
  }
}
