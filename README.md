# Mintbay edition front end: a verified model of its decision logic

This project models the sequential logic of a small NFT mint site in Dafny.
It covers:

- the token-URI decoder;
- the PNG route's decision logic;
- the price label on a token card;
- the supply and mint-eligibility arithmetic of the mint page;
- how the start page assembles its listings.

The rest of the site is React rendering, wallet hooks and indexer I/O. Those
results enter the model as parameters.

The model is split into modules, one file each:

- `Wrappers`: the `Option` type, and `Call`, which records whether an awaited call returned or threw.
- `Text`: the JavaScript string built-ins the code relies on. These are `split`, `startsWith`, `includes`, `Number(...)` on decimal strings, integer printing and ASCII `toLowerCase`.
- `Base64`: `atob`, which is the forgiving-base64 decode of the WHATWG Infra Standard over the alphabet of section 4 of RFC 4648. It sits beside a padded encoder, its partner, and a round-trip proof.
- `JsonValues`: a small JSON datatype. `JSON.parse` is an abstract parameter of type `string -> Option<Json>`.
- `TokenUri`: `processTokenURI`, which takes a data URI (RFC 2397) and returns its SVG image or null.
- `GeneratePng`: the `GET` handler of the PNG route, from the queried tokenURI to a 200, 400 or 500 response.
- `NftImage`: the pure rules of the image component. These are the skip rule, URI precedence, initial and settled status, size and cache key.
- `Ether`: `parseEther` and `formatEther` by their meaning, an exact fixed-point conversion with 18 decimals.
- `TokenCard`: `formatPrice`, including the trailing-zero regular expression modelled position by position, as well as minted/sold-out and the card dimensions.
- `MintPage`: the mint page's derived values, the ordered checks and wei total of both collect handlers, and the error mapping. The page's state updates are the class `PageState`.
- `Sorting`: a stable descending sort, the one `Array.prototype.sort` gives with a `b - a` comparator.
- `Listing`: the start page. This covers the four reads per edition, the `supplyMap` loop (a method proved against a map-building function), the merge with fallbacks, sales, totals and the load-more counters (the class `DisplayLimits`).

## Model

| member | source | states |
|---|---|---|
| Text.OrElse | app/start.tsx:331 | `s \|\| fallback`: the string when it is non-empty, otherwise the fallback |
| Text.Split | app/components/NFTImage.tsx:25 | `split(sep)` gives at least one field, and no field contains the separator |
| Text.JoinSplit | app/components/NFTImage.tsx:25 | joining the fields of `split` with the separator gives the original string back |
| Text.SplitNoSep | app/components/NFTImage.tsx:25 | a string without the separator splits into itself alone |
| Text.SplitAtFirst | app/components/NFTImage.tsx:25 | a separator-free head, then the separator: the head is the first field and the rest split as before |
| Text.DigitsValBound | app/components/TokenCard.tsx:36 | a k-digit decimal string is worth less than 10^k |
| Text.LeadingZerosVal | app/components/TokenCard.tsx:37 | leading zeros do not change a decimal value |
| Text.TrailingZerosVal | app/components/TokenCard.tsx:37 | k trailing zeros multiply a decimal value by 10^k |
| Text.AllZerosVal | app/components/TokenCard.tsx:33 | a string of zeros is worth 0 |
| Text.NatToString | app/page.tsx:245 | integer printing gives non-empty decimal digits, with no leading zero, whose value is the number |
| Text.NatToStringLength | app/components/TokenCard.tsx:37 | a number below 10^k prints in at most k digits |
| Text.NatToStringInjective | app/components/NFTImage.tsx:63 | different numbers print differently |
| Text.IntToString | app/components/NFTImage.tsx:63 | a negative number prints as '-' then its magnitude, and the result never contains ':' |
| Text.IntToStringInjective | app/components/NFTImage.tsx:63 | different integers print differently |
| Text.NumberOrZero | app/start.tsx:338 | `Number(s) \|\| 0`: the decimal value of a digit string, otherwise 0 |
| Text.JsNumber | app/start.tsx:383 | `Number(s)` is NaN (None) exactly when s is not a digit string, and otherwise agrees with NumberOrZero |
| Text.NumberOrZeroField | app/start.tsx:337 | `Number(x) \|\| 0` on an optional field: null and undefined give 0 |
| Text.ToLowerAscii | app/start.tsx:252 | `toLowerCase` keeps the length and maps exactly 'A'..'Z' to 'a'..'z' |
| Base64.SextetOf | app/components/NFTImage.tsx:26 | an alphabet letter stands for a value below 64 |
| Base64.CharOf | app/components/NFTImage.tsx:26 | the alphabet letter of a 6-bit value, which SextetOf maps back to it; never '=', whitespace or ',' |
| Base64.RemoveWhitespace | app/components/NFTImage.tsx:26 | forgiving-base64 drops ASCII whitespace; what is left contains none |
| Base64.DecodeQuad | app/components/NFTImage.tsx:26 | four sextets give three bytes |
| Base64.DecodePair | app/components/NFTImage.tsx:26 | two final sextets give one byte |
| Base64.DecodeTriple | app/components/NFTImage.tsx:26 | three final sextets give two bytes |
| Base64.DecodeSextetsLength | app/components/NFTImage.tsx:26 | n alphabet characters decode to n*3/4 bytes |
| Base64.BytesToText | app/components/NFTImage.tsx:26 | `atob` returns one character per byte, each with that byte's code |
| Base64.Atob | app/components/NFTImage.tsx:26 | `atob` throws exactly when the forgiving decode fails, and otherwise returns the decoded bytes as text |
| Base64.EncodeQuad | app/components/NFTImage.tsx:26 | the encoder's partner step: three bytes give four alphabet characters |
| Base64.UnpaddedLength | app/components/NFTImage.tsx:26 | the length of an unpadded encoding is never 1 mod 4 |
| Base64.UnpaddedLengthFormula | app/components/NFTImage.tsx:26 | that length is ceil(4n/3) for n bytes |
| Base64.EncodeUnpadded | app/components/NFTImage.tsx:26 | the unpadded encoding uses only the alphabet and has the length above |
| Base64.Encode | app/components/NFTImage.tsx:26 | the padded encoding has a length divisible by 4 |
| Base64.Pad | app/components/NFTImage.tsx:26 | padding with '=' brings the length to a multiple of 4 |
| Base64.QuadRoundTrip | app/components/NFTImage.tsx:26 | decoding an encoded group of three bytes gives the bytes back |
| Base64.PairRoundTrip | app/components/NFTImage.tsx:26 | the same for a final single byte |
| Base64.TripleRoundTrip | app/components/NFTImage.tsx:26 | the same for a final pair of bytes |
| Base64.DecodeEncodeUnpadded | app/components/NFTImage.tsx:26 | decoding the characters of the unpadded encoding of any bytes gives the bytes back |
| Base64.RemoveWhitespaceNoop | app/components/NFTImage.tsx:26 | text without whitespace is left as it is |
| Base64.StripEncodePadding | app/components/NFTImage.tsx:26 | removing the padding from an encoding gives the unpadded encoding |
| Base64.DecodeEncode | app/components/NFTImage.tsx:26 | `atob` of the padded encoding of any bytes succeeds and gives the bytes back |
| Base64.DecodeUnpadded | app/components/NFTImage.tsx:26 | the forgiving decoder also accepts the unpadded encoding |
| Base64.EncodeHasNoComma | app/components/NFTImage.tsx:25 | an encoding never contains a comma, so `split(',')` keeps it whole |
| Base64.RemoveWhitespaceIdempotent | app/components/NFTImage.tsx:26 | removing whitespace twice is the same as once |
| Base64.WhitespaceIgnored | app/components/NFTImage.tsx:26 | whitespace anywhere in the input does not change the decode |
| Base64.RemainderOneRejected | app/components/NFTImage.tsx:26 | an input of length 1 mod 4, after whitespace and padding removal, makes `atob` throw |
| Base64.ForeignCharRejected | app/components/NFTImage.tsx:26 | a character outside the alphabet, '=' and whitespace makes `atob` throw |
| JsonValues.LastBinding | app/components/NFTImage.tsx:27 | a key is absent exactly when no member names it; otherwise the value is the last member's |
| JsonValues.GetProperty | app/components/NFTImage.tsx:27 | `metadata.image` throws exactly on null; on an object it is defined exactly when a member names the key, and then it is the last such member's value; any other value gives undefined |
| TokenUri.PrefixShape | app/components/NFTImage.tsx:20 | the JSON data prefix is a comma-free head and a single comma |
| TokenUri.SplitPrefixed | app/components/NFTImage.tsx:25 | a prefixed URI splits into the head and the fields after the prefix |
| TokenUri.Payload | app/components/NFTImage.tsx:25 | `split(',')[1]` is a comma-free start of the text after the prefix |
| TokenUri.ReadImageField | app/components/NFTImage.tsx:26-28 | `JSON.parse(atob(payload)).image` throws exactly when atob fails, JSON.parse fails or the metadata is null; otherwise it is undefined or the metadata's own `image` value |
| TokenUri.ProcessTokenURI | app/components/NFTImage.tsx:18-39 | no JSON data prefix gives null; a result starts with the SVG prefix and is the metadata image unchanged; null means no such image is carried |
| TokenUri.BadBase64YieldsNull | app/components/NFTImage.tsx:26-38 | a payload `atob` rejects yields null |
| TokenUri.BadJsonYieldsNull | app/components/NFTImage.tsx:26-38 | text `JSON.parse` rejects yields null |
| TokenUri.NullMetadataOrNonStringImageYieldsNull | app/components/NFTImage.tsx:27-38 | null metadata, or an image that is not a string, yields null |
| TokenUri.TextAfterSecondCommaIgnored | app/components/NFTImage.tsx:25 | anything after a second comma does not change the result |
| TokenUri.EncodedMetadataYieldsImage | app/components/NFTImage.tsx:18-34 | base64 of metadata with an SVG data image, behind the prefix, yields exactly that image |
| GeneratePng.Get | app/api/generate-png/route.ts:26-45 | the status is 200, 400 or 500; 200 exactly with an SVG body that starts with the SVG prefix; every 500 is 'Failed to generate PNG'; FailedExactly says which inputs give it |
| GeneratePng.InvalidTokenUriExactly | app/api/generate-png/route.ts:26-29 | 'Invalid tokenURI' exactly when the tokenURI is missing or lacks the JSON data prefix |
| GeneratePng.NoSvgImageCases | app/api/generate-png/route.ts:35-37 | a missing, falsy or non-SVG image gives 400 'No SVG image found' |
| GeneratePng.ThrowingMetadataIs500 | app/api/generate-png/route.ts:31-45 | null metadata, or a truthy image that is not a string, gives 500, not 400 |
| GeneratePng.FailedExactly | app/api/generate-png/route.ts:19-45 | 500 'Failed to generate PNG' exactly for a thrown query, a payload atob rejects, text JSON.parse rejects, null metadata or a truthy non-string image |
| GeneratePng.GetAgreesWithProcessTokenURI | app/api/generate-png/route.ts:27-41 | 200 exactly when `processTokenURI` is non-null, with the same string |
| GeneratePng.SuccessIsMetadataImage | app/api/generate-png/route.ts:41 | a 200 body is the metadata's SVG image |
| NftImage.ShouldSkip | app/components/NFTImage.tsx:42 | the read runs exactly when not skipped, the address is non-empty and the token id is not negative |
| NftImage.ContractURI | app/components/NFTImage.tsx:42-56 | the contract read counts only when it is not skipped, did not fail and gave a non-empty string |
| NftImage.PrimaryURI | app/components/NFTImage.tsx:79 | a truthy tokenURI prop wins over the contract URI |
| NftImage.InitialState | app/components/NFTImage.tsx:60 | the initial status is success exactly when imageSrc is given, and it is never error |
| NftImage.AfterLoad | app/components/NFTImage.tsx:81-99 | imageSrc leaves the state alone; no imageSrc and no URI gives error; a new success carries an SVG data URI |
| NftImage.ContractReadUnusedWithProps | app/components/NFTImage.tsx:42-56 | with imageSrc or a tokenURI prop, the contract read cannot change the outcome |
| NftImage.Settled | app/components/NFTImage.tsx:60-99 | a fresh component never stays loading; an imageSrc is shown as given; any other success shows an SVG data URI |
| NftImage.SettledStatus | app/components/NFTImage.tsx:78-99 | with no imageSrc, success exactly when the chosen URI yields an image, which is then fetched; otherwise error |
| NftImage.Size | app/components/NFTImage.tsx:62 | the image is 72*scale pixels |
| NftImage.CacheKeyInjective | app/components/NFTImage.tsx:63 | `${address}:${tokenId}:image` keys of different tokens differ |
| Ether.ParseParts | app/page.tsx:276-280 | `parseEther` accepts only one or two digit fields around a point, with a digit somewhere |
| Ether.WeiPerEtherIsPow10 | app/page.tsx:276-280 | one ether is 10^18 wei |
| Ether.PadFraction | app/page.tsx:276-280 | the fraction digits padded to at least 18 places are digits |
| Ether.ParseWholeEther | app/page.tsx:276-280 | `parseEther` of a whole number is that number times 10^18 |
| Ether.SplitDecimal | app/page.tsx:276-280 | `w.f` has the two fields w and f |
| Ether.ParseDecimalFields | app/page.tsx:276-280 | `parseEther(w.f)` is decided by its two fields |
| Ether.ParseDecimalEther | app/page.tsx:276-280 | `parseEther(w.f)` with at most 18 fraction digits is w*10^18 + f*10^(18-\|f\|) |
| Ether.ShortFractionWei | app/page.tsx:276-280 | a fraction within 18 places is scaled to 18 places |
| Ether.FractionTrailingZero | app/components/TokenCard.tsx:33 | a trailing zero in the fraction changes nothing |
| Ether.FractionTrailingZeros | app/components/TokenCard.tsx:33 | neither do any number of them |
| Ether.ZeroFraction | app/components/TokenCard.tsx:33 | a fraction of zeros is worth no wei |
| Ether.FeeWei | app/page.tsx:113 | the launchpad fee "0.0004" is 4*10^14 wei |
| Ether.PadLeft | app/components/TokenCard.tsx:37 | left padding gives at least the requested length |
| Ether.FormatEther | app/components/TokenCard.tsx:37 | the whole ether, a point, then 18 fraction digits |
| Ether.FormatEtherFraction | app/components/TokenCard.tsx:37 | those 18 digits are worth wei mod 10^18 |
| Ether.ParseFormatEther | app/components/TokenCard.tsx:37 | `parseEther(formatEther(wei)) == wei` |
| TokenCard.FirstTrimMatch | app/components/TokenCard.tsx:33 | the leftmost position where the trim pattern matches at or after `from` |
| TokenCard.TrimZeros | app/components/TokenCard.tsx:33 | the replace cuts the price at the leftmost match of the pattern, if any, and keeps the start unchanged |
| TokenCard.StripZeros | app/components/TokenCard.tsx:33 | the fraction without its trailing zeros; empty exactly when all zeros |
| TokenCard.TrimNoFraction | app/components/TokenCard.tsx:33 | digits followed by a bare point are left alone |
| TokenCard.TrimZeroFraction | app/components/TokenCard.tsx:33 | `w.000` is trimmed to `w` |
| TokenCard.TrimFraction | app/components/TokenCard.tsx:33 | `w.f` with a non-zero fraction loses only the fraction's trailing zeros; the integer part is untouched |
| TokenCard.TrimZeroFractionValue | app/components/TokenCard.tsx:33 | trimming a zero fraction keeps the ether value |
| TokenCard.SameFractionSameEther | app/components/TokenCard.tsx:33 | fractions worth the same wei give the same amount |
| TokenCard.TrimFractionValue | app/components/TokenCard.tsx:33 | trimming a non-zero fraction keeps the ether value |
| TokenCard.TrimKeepsEtherValue | app/components/TokenCard.tsx:33 | trimming any `w.f` keeps its ether value |
| TokenCard.WeiOf | app/components/TokenCard.tsx:36 | `BigInt(price \|\| '0')`: 0 for the empty string; a non-empty price is accepted exactly when it is a digit string, and then gives its value |
| TokenCard.FormatPrice | app/components/TokenCard.tsx:26-38 | sold out before free before a price; any price matching the ether pattern is shown as its trim; any other is read by `BigInt` (none when it throws) and shown as the trimmed `formatEther` |
| TokenCard.EtherPriceOnlyTrimmed | app/components/TokenCard.tsx:30-33 | a `w.f` price is shown trimmed, with the same ether value |
| TokenCard.WeiPriceShownInEther | app/components/TokenCard.tsx:35-37 | a wei price is shown as an ether amount whose value is that many wei |
| TokenCard.WholeEtherShownAsInteger | app/components/TokenCard.tsx:35-37 | n*10^18 wei is shown as n |
| TokenCard.DisplayPriceSource | app/components/TokenCard.tsx:46 | `priceEth` when non-empty, otherwise `price` |
| TokenCard.Minted | app/components/TokenCard.tsx:42 | `min(totalSupply, editionSize)`: bounded by both and equal to one of them |
| TokenCard.IsSoldOut | app/components/TokenCard.tsx:43 | sold out exactly when totalSupply >= editionSize |
| TokenCard.CountTextFields | app/components/TokenCard.tsx:61 | `${minted}/${editionSize}` splits at its one '/' into the minted count and the size, both printed in decimal |
| TokenCard.CardWidth | app/components/TokenCard.tsx:54 | 72*scale + 32 |
| TokenCard.CardHeight | app/components/TokenCard.tsx:54-59 | 72*scale + 56 with the count row (scale > 1), else + 32 |
| MintPage.BoundText | app/page.tsx:245 | the printed size never contains '/' |
| MintPage.Minted | app/page.tsx:107 | the indexer's totalSupply, or 0 |
| MintPage.EditionSize | app/page.tsx:108 | unlimited exactly when the size is missing |
| MintPage.Remaining | app/page.tsx:109 | `max(0, size - minted)`; unlimited exactly for an unlimited edition |
| MintPage.IsSoldOut | app/page.tsx:110 | an unlimited edition is never sold out |
| MintPage.RemainingZeroIffSoldOut | app/page.tsx:109-110 | remaining is 0 exactly when sold out |
| MintPage.CountDisplayFields | app/page.tsx:244-246 | `minted/size` splits into the printed minted count and the size or ∞ |
| MintPage.MaxMintAllowed | app/page.tsx:150-152 | unlimited exactly when the maximum is missing or 0; otherwise `max(0, max - mintCount)` |
| MintPage.IsMaxMintReached | app/page.tsx:153 | reached exactly when a non-zero maximum is used up |
| MintPage.CanCollect | app/page.tsx:233-237 | with no wallet connected the button is always enabled |
| MintPage.CanCollectConnected | app/page.tsx:233-237 | in terms of the page's reads, a connected wallet can collect exactly when public or holding a whitelist token, its mint count is below the maximum unless that is missing or 0, and fewer are minted than the size unless the size is missing |
| MintPage.LaunchpadFeeParses | app/page.tsx:113 | the fee parses to 4*10^14 wei |
| MintPage.MintValueWei | app/page.tsx:276-280 | `parseEther(isFreeMint ? "0" : priceEth) + parseEther("0.0004")`; a free mint still pays the fee |
| MintPage.ParsedPriceCharged | app/page.tsx:276-280 | a price `parseEther` reads as w wei is charged w plus the fee |
| MintPage.FormattedPriceCharged | app/page.tsx:276-280 | a price printed by `formatEther` is charged exactly, plus the fee |
| MintPage.CollectDecision | app/page.tsx:248-311 | each outcome exactly: no wallet, a failed or true paused read, no remaining tokens, a failed limit read, the unclamped per-address limit, a price that does not parse, each with its own message; otherwise one token at the page's contract for the wei total |
| MintPage.ButtonBlockedCollectRejected | app/page.tsx:233-274 | what the button blocks for supply or the wallet limit, the handler rejects too when its reads agree |
| MintPage.SoldOutRejected | app/page.tsx:263-266 | a sold-out edition is rejected with 'No tokens remain!' |
| MintPage.FreeMintSendsFee | app/page.tsx:276-280 | a free mint sends exactly the fee |
| MintPage.WhitelistCollectDecision | app/page.tsx:313-374 | each outcome exactly: no wallet, paused, a failed read (generic message), supply at the size ('This whitelist contract is sold out!'), an unparsable price; otherwise one token at the whitelist contract for the wei total |
| MintPage.CollectErrorMessage | app/page.tsx:291-300 | NotWhitelisted first, then InsufficientPayment, otherwise 'Transaction failed!' |
| MintPage.WhitelistCollectErrorMessage | app/page.tsx:351-358 | InsufficientPayment, otherwise 'Transaction failed!' |
| MintPage.ErrorMessagesAgreeWithoutWhitelistError | app/page.tsx:291-358 | the two mappings differ exactly on NotWhitelisted errors |
| MintPage.WhitelistEditionSize | app/page.tsx:164 | `Number(size) \|\| Infinity`: 0 or missing is unlimited |
| MintPage.WhitelistTotalSupply | app/page.tsx:160-162 | a non-zero on-chain supply wins over the indexer's |
| MintPage.WhitelistInfoOf | app/page.tsx:155-167 | one whitelist entry: address and name as given, priceEth or '0', free iff true, the supply and size fallbacks, and the first token's URI, null exactly when falsy |
| MintPage.WhitelistInfos | app/page.tsx:155-167 | one entry per whitelist contract, paired with its supply read |
| MintPage.ZeroSizeReadDifferently | app/page.tsx:108-110 | a size of 0 is sold out on the main card but unlimited on a whitelist entry (line 164), so the popup's mint button (line 580) stays enabled |
| MintPage.AnyPositive | app/page.tsx:182-185 | some balance is positive |
| MintPage.ImageUrlAfterTokenURI | app/page.tsx:209-223 | the image changes only for a prefixed URI with a truthy image, and such an image of any JSON kind is taken |
| MintPage.PageTakesProcessedImage | app/page.tsx:209-223 | whatever `processTokenURI` accepts, the page shows too |
| MintPage.PageTakesNonSvgImage | app/page.tsx:209-223 | the page also shows a non-SVG image that `processTokenURI` refuses |
| MintPage.PopupImageSource | app/page.tsx:538-543 | the placeholder without a prefixed URI; it throws exactly when decoding or parsing fails; otherwise the metadata's `image` value, or undefined when it has none |
| MintPage.PageState.constructor | app/page.tsx:85-88 | the initial page state |
| MintPage.PageState.CheckWhitelistToken | app/page.tsx:169-192 | no wallet or no whitelist: false; else whether any balance is positive; a failed read: false and an error |
| MintPage.PageState.HandleCollect | app/page.tsx:248-311 | a rejection sets its message; a submission records the call; nothing else changes |
| MintPage.PageState.HandleCollectWhitelistToken | app/page.tsx:313-374 | the same for the whitelist handler |
| MintPage.PageState.OnCollectError | app/page.tsx:291-300 | the mapped error message is set |
| MintPage.PageState.OnCollectSuccess | app/page.tsx:301-304 | the error message is cleared |
| MintPage.PageState.OnWhitelistCollectError | app/page.tsx:351-358 | the whitelist mapping's message is set |
| MintPage.PageState.OnWhitelistCollectSuccess | app/page.tsx:359-365 | the popup closes, the error clears and whitelist holding is re-checked |
| MintPage.PageState.OnWriteError | app/page.tsx:225-231 | 'Transactionarm failed: ' and the message, as the source spells it |
| MintPage.PageState.SetWhitelistPopup | app/page.tsx:467 | only the popup flag changes |
| MintPage.PageState.ApplyTokenURI | app/page.tsx:209-223 | the image becomes ImageUrlAfterTokenURI of the old image; nothing else changes |
| Sorting.WithKey | app/start.tsx:350 | the elements with one key, in order |
| Sorting.Insert | app/start.tsx:350 | inserting into a descending sequence keeps it descending and adds exactly x |
| Sorting.SortDesc | app/start.tsx:350 | a descending permutation of the input |
| Sorting.InsertWithKey | app/start.tsx:350 | insertion places x before the equal keys already there |
| Sorting.SortStable | app/start.tsx:350 | elements with equal keys keep their input order |
| Listing.NormalizedEditions | app/start.tsx:250-255 | the lower-cased on-chain list when there is one, otherwise the initial editions |
| Listing.ReadCalls | app/start.tsx:267-273 | four reads per edition |
| Listing.ReadCallOrder | app/start.tsx:268-273 | read 4i+j is function j of totalSupply, nextTokenId, price, isFreeMint for edition i |
| Listing.TextOfRead | app/start.tsx:291 | `toString()` of a read result is never empty |
| Listing.ResultAt | app/start.tsx:283-286 | `contractData[k]?.result` is undefined past the end |
| Listing.EntryAt | app/start.tsx:283-293 | an entry exactly when all four results are defined, built from them |
| Listing.SupplyMapSpec | app/start.tsx:279-298 | empty without contract data; every key is an edition |
| Listing.BuildSupplyMap | app/start.tsx:279-298 | the loop builds SupplyMapSpec |
| Listing.SupplyMapKeys | app/start.tsx:282-294 | an address is a key exactly when some edition with that address has all four reads |
| Listing.SupplyMapLastWins | app/start.tsx:288 | with repeated addresses, the last complete entry is kept |
| Listing.CachedImageNone | app/start.tsx:316-327 | no image exactly when no server image has that address |
| Listing.CachedImageLast | app/start.tsx:316-327 | otherwise the last server image with that address |
| Listing.MergeEdition | app/start.tsx:321-348 | every field of the merged record: name, size, price (indexer, else on-chain, else '0'), isFreeMint, fee, nextTokenId (on-chain if non-zero, else indexer, else '0'), totalSupply, createdAt, each token's numeric id and URI, the image and the first token's URI |
| Listing.FirstPresent | app/start.tsx:311 | fetched data first, then initial, then empty |
| Listing.MergeAll | app/start.tsx:319-349 | one merged entry per edition |
| Listing.SortedEditions | app/start.tsx:310-351 | one entry per input edition, sorted by createdAt descending |
| Listing.SameAgeKeepsOrder | app/start.tsx:350 | editions with equal createdAt keep their order |
| Listing.SalePrice | app/start.tsx:369 | '0' for a mint of a free edition, otherwise the sale price or '0' |
| Listing.FirstImage | app/start.tsx:360-362 | `find(...)?.imageSrc`: none exactly when no image matches, otherwise the first match's imageSrc |
| Listing.ServerSaleImage | app/start.tsx:175-179 | a server-prepared sale image keeps the edition address, the image source and the indexer's token id as a string, or undefined (null here) when there is none; never a number |
| Listing.FindSaleImageAsWritten | app/start.tsx:360-362 | the lookup as written: none exactly when no image matches by address and strict equality with `Number(tokenId)`, else the first such image |
| Listing.ServerSaleImagesNeverFound | app/start.tsx:360-362 | with server images keyed by the indexer's string token id, no lookup ever succeeds |
| Listing.FindSaleImage | app/start.tsx:360-362 | the corrected lookup: none exactly when no image matches by address and numeric token id, else the first such image |
| Listing.ServerSaleImageFound | app/start.tsx:360-362 | the corrected lookup finds the server image of a sale |
| Listing.ListSale | app/start.tsx:363-375 | the whole listed record: id and address, name or 'Unknown', numeric token id and size (0 when not a number), mint or secondary, its price, free flag, numeric timestamp, the URI (null exactly when falsy); its image is the corrected lookup's |
| Listing.WithTokenId | app/start.tsx:358 | keeps only sales with a truthy tokenId, never more than it was given |
| Listing.WithTokenIdCounts | app/start.tsx:358 | each sale with a truthy tokenId is kept as often as it occurs, every other sale is dropped |
| Listing.WithTokenIdAppend | app/start.tsx:358 | filtering a concatenation filters each part in order |
| Listing.AllSales | app/start.tsx:355-378 | one listed sale per kept sale, sorted by timestamp descending; images come from the corrected lookup |
| Listing.AllSalesStable | app/start.tsx:377 | sales with equal timestamps keep their indexer order |
| Listing.TotalSales | app/start.tsx:380-388 | fetched count, then initial count, then the list length |
| Listing.TotalSalesCountsListed | app/start.tsx:380-388 | with neither stats count truthy, the total is the number of sales with a token id |
| Listing.DisplayLimits.constructor | app/start.tsx:230-231 | both limits start at 12, with no loads counted |
| Listing.DisplayLimits.LoadMoreMints | app/start.tsx:390 | the mints limit grows by 12 and one more load is counted; the limit stays 12 plus 12 per load |
| Listing.DisplayLimits.LoadMoreSales | app/start.tsx:391 | the same for the sales limit |
| Listing.Visible | app/start.tsx:463 | `slice(0, limit)`: the first min(length, limit) items |
| Listing.LoadMoreIffHidden | app/start.tsx:485 | "Load More" shows exactly when some item is hidden |
| Listing.VisibleAfterLoads | app/start.tsx:390-391 | for the limits after the counted loads, the first min(length, 12 + 12n) items of each list show, and "Load More" exactly when the list is longer |
| Listing.LoadsToShowAll | app/start.tsx:485 | the fewest loads after which "Load More" disappears |

## Left out

- Rendering (JSX, styling, `Suspense`, memo comparators), the wallet and chain hooks and the indexer queries are left out. Their results (paused, mint count, supplies, balances, query data) are parameters.
- The image component's localforage cache and the racing of its effects (app/components/NFTImage.tsx:66-99) are not modelled. Only its pure rules and the outcome of one load are.
- `JSON.parse` is an abstract parameter. JSON numbers are integers.
- The `Promise.all` balance fan-out (app/page.tsx:175-185) is not modelled; only the "any balance > 0" aggregation is.
- The `toFixed(4)` cost string (app/page.tsx:239-242) is floating-point formatting and is left out.
- app/api/tx/route.ts, `getServerSideProps`, the Apollo client and app/layout.tsx are not part of this model. `getServerSideProps` always reaches its empty fallback, because `initializeApollo` throws (app/start.tsx:549-551).
- Timers (the 5-second clearing of the error), `router.reload`, console logging, `setFrameReady` and adding the frame are left out.
- Text.NumberOrZero: only decimal digit strings convert. Hex, exponents, signs, decimals and surrounding whitespace, which `Number` also accepts, are read as NaN.
- Text.JsNumber: the same restriction as NumberOrZero.
- Text.NumberOrZero: values are kept exact, where `Number` rounds integers above 2^53 to the nearest double. The same holds for JsNumber and for the number of a contract read in the listing.
- Text.ToLowerAscii: lower-cases ASCII letters only. Addresses are ASCII hex.
- Ether.ParseParts: accepts unsigned decimal strings only, so ethers' "-1.5" is rejected; the same holds for Ether.ParseEther, whose body it is.
- Ether.ParseEther: accepts unsigned decimal strings only. A leading '-' and ethers' fixed-width bound on the value are not modelled.
- Ether.FormatEther: keeps all 18 fraction digits instead of ethers' own trimming. `formatPrice` trims afterwards, and TrimKeepsEtherValue shows the value is kept.
- Ether.FormatEther: is total, where ethers throws on a value beyond its fixed width.
- TokenCard.FormatPrice: the wei branch reads prices through WeiOf, so it inherits WeiOf's restriction to digit strings.
- MintPage.PageState.CheckWhitelistToken: each `Number(balance) > 0` test is taken on a natural number.
- MintPage.CollectDecision: takes `isFreeMint` as a boolean, the truthiness of `edition?.isFreeMint || false` (app/page.tsx:112).
- MintPage.Minted: takes the indexer's totalSupply as a number or nothing. `Number()` of a non-numeric indexer string, which is NaN (app/page.tsx:107), is not represented.
- MintPage.EditionSize: the same for editionSize (app/page.tsx:108).
- TokenCard.WeiOf: reads digit strings only. The whitespace, '+' or '-' sign and 0x/0o/0b literals that `BigInt` also accepts are treated as throwing, and a negative wei price is not modelled.
- Listing.SortedEditions: the sort is stated as sorted and a permutation, with stability in SameAgeKeepsOrder. Which of the engine's sorting algorithms runs is not modelled.
- Listing.AllSales: the same; stability is in AllSalesStable.
- Listing.ListSale: its image uses the corrected lookup FindSaleImage (see Findings). The code as written shows no server-prepared image, as ServerSaleImagesNeverFound states.
- Listing.AllSales: it lists sales through ListSale, so the same corrected lookup applies.
- NftImage.AfterLoad: models one completed load. Cancellation by a newer effect and the cache hit path are not modelled.

## Findings

| source | as written | input that shows it | evidently intended | confidence | as-written member | corrected member |
|---|---|---|---|---|---|---|
| app/start.tsx:361 | `img.tokenId === Number(sale.tokenId)`, where the server stored `tokenId: sale.tokenId`, the indexer's string (line 178) | any sale with a server image, e.g. tokenId "1": "1" === 1 is false | compare the token ids as numbers, so a server-prepared image is found | not executed; latent while `initializeApollo` throws | Listing.ServerSaleImagesNeverFound (with Listing.FindSaleImageAsWritten) | Listing.ServerSaleImageFound (with Listing.FindSaleImage) |
