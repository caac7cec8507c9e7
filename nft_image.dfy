/**
 * The small pure rules of the NFTImage component (app/components/NFTImage.tsx):
 * when the contract `tokenURI` read is skipped and which read results are used,
 * which URI wins, the initial and post-load status, the display size and the
 * image-cache key.
 */
module NftImage {
  import opened Wrappers
  import opened Text
  import opened JsonValues
  import opened TokenUri

  /** `useNFTURI`'s `shouldSkip`. */
  predicate ShouldSkip(skip: bool, address: string, tokenId: int)
    ensures !ShouldSkip(skip, address, tokenId) <==> !skip && |address| > 0 && tokenId >= 0
  {
    skip || address == "" || tokenId < 0
  }

  /** The `skip` argument NFTImage passes: an `imageSrc` or a `tokenURI` prop was given. */
  predicate ReadSkippedByProps(imageSrc: Option<string>, tokenURI: Option<string>) {
    IsTruthy(imageSrc) || IsTruthy(tokenURI)
  }

  /** What `useNFTURI` returns for the read's `data` (None: undefined) and `error`. */
  function ContractURI(skip: bool, address: string, tokenId: int, data: Option<Json>, error: bool): (r: Option<string>)
    ensures r.Some? <==> !ShouldSkip(skip, address, tokenId) && !error && data.Some?
                         && data.value.JString? && data.value.s != ""
    ensures r.Some? ==> data == Some(JString(r.value))
  {
    if ShouldSkip(skip, address, tokenId) || data.None? || !Truthy(data.value) || error then None
    else if data.value.JString? then Some(data.value.s)
    else None
  }

  /** `tokenURI || contractURI` */
  function PrimaryURI(tokenURI: Option<string>, contractURI: Option<string>): (r: Option<string>)
    ensures IsTruthy(tokenURI) ==> r == tokenURI
    ensures !IsTruthy(tokenURI) ==> r == contractURI
  {
    if IsTruthy(tokenURI) then tokenURI else contractURI
  }

  datatype Status = Loading | Success | Error

  /** The component's `status` and `fetchedImageSrc` state. */
  datatype ImageState = ImageState(status: Status, fetched: Option<string>)

  function InitialState(imageSrc: Option<string>): (s: ImageState)
    ensures s.status == Success <==> IsTruthy(imageSrc)
    ensures s.status != Error
    ensures s.fetched.Some? <==> IsTruthy(imageSrc)
  {
    if IsTruthy(imageSrc) then ImageState(Success, imageSrc) else ImageState(Loading, None)
  }

  /** The state after the loading effect (lines 81-99), cache effects left out. */
  function AfterLoad(state: ImageState, imageSrc: Option<string>, primaryURI: Option<string>, parse: JsonParser): (s: ImageState)
    ensures IsTruthy(imageSrc) ==> s == state
    ensures !IsTruthy(imageSrc) && !IsTruthy(primaryURI) ==> s == ImageState(Error, state.fetched)
    ensures s.status == Success && s != state ==> s.fetched.Some? && StartsWith(s.fetched.value, SvgDataPrefix)
  {
    if IsTruthy(imageSrc) then state
    else if !IsTruthy(primaryURI) then ImageState(Error, state.fetched)
    else
      match ProcessTokenURI(primaryURI.value, parse)
      case Some(image) => ImageState(Success, Some(image))
      case None => ImageState(Error, state.fetched)
  }

  /** The rendering state of a fresh component once its contract read has answered. */
  function Settled(address: string, tokenId: int, imageSrc: Option<string>, tokenURI: Option<string>,
                   data: Option<Json>, error: bool, parse: JsonParser): (s: ImageState)
    ensures s.status != Loading
    ensures IsTruthy(imageSrc) ==> s == ImageState(Success, imageSrc)
    ensures !IsTruthy(imageSrc) && s.status == Success ==> s.fetched.Some? && StartsWith(s.fetched.value, SvgDataPrefix)
  {
    var contractURI := ContractURI(ReadSkippedByProps(imageSrc, tokenURI), address, tokenId, data, error);
    AfterLoad(InitialState(imageSrc), imageSrc, PrimaryURI(tokenURI, contractURI), parse)
  }

  /** When an `imageSrc` or a `tokenURI` prop is given, the contract read result is never used. */
  lemma {:induction false} ContractReadUnusedWithProps(address: string, tokenId: int, imageSrc: Option<string>,
      tokenURI: Option<string>, data1: Option<Json>, error1: bool, data2: Option<Json>, error2: bool, parse: JsonParser)
    requires ReadSkippedByProps(imageSrc, tokenURI)
    ensures Settled(address, tokenId, imageSrc, tokenURI, data1, error1, parse)
         == Settled(address, tokenId, imageSrc, tokenURI, data2, error2, parse)
  {
    assert ContractURI(true, address, tokenId, data1, error1) == None == ContractURI(true, address, tokenId, data2, error2);
  }

  /**
   * Without `imageSrc`, the component ends in success exactly when the URI it
   * uses (the prop first, else the contract's string result) is accepted by
   * processTokenURI, and then it shows that SVG data URI.
   */
  lemma {:induction false} SettledStatus(address: string, tokenId: int, tokenURI: Option<string>,
      data: Option<Json>, error: bool, parse: JsonParser)
    ensures var s := Settled(address, tokenId, None, tokenURI, data, error, parse);
      var uri := PrimaryURI(tokenURI, ContractURI(IsTruthy(tokenURI), address, tokenId, data, error));
      && (s.status == Success <==> uri.Some? && ProcessTokenURI(uri.value, parse).Some?)
      && (s.status == Success ==> s.fetched == ProcessTokenURI(uri.value, parse))
      && (s.status != Success ==> s == ImageState(Error, None))
  {
  }

  /** Rendered width and height of the image, in pixels. */
  function Size(scale: nat): (px: nat)
    ensures px == 72 * scale
  {
    72 * scale
  }

  /** The localforage key: `${address}:${tokenId}:image`. */
  function CacheKey(address: string, tokenId: int): string {
    address + ":" + IntToString(tokenId) + ":image"
  }

  /** Two cache keys are equal only for the same address and token id. */
  lemma {:induction false} CacheKeyInjective(a1: string, t1: int, a2: string, t2: int)
    requires CacheKey(a1, t1) == CacheKey(a2, t2)
    ensures a1 == a2 && t1 == t2
  {
    var s1, s2 := IntToString(t1), IntToString(t2);
    var k := CacheKey(a1, t1);
    var m := |k| - 6;
    assert k[..m] == a1 + ":" + s1;
    assert CacheKey(a2, t2)[..m] == a2 + ":" + s2;
    SameTail(a1, s1, a2, s2);
    IntToStringInjective(t1, t2);
  }

  /** `a + ":" + s` determines a and s when s has no colon. */
  lemma SameTail(a1: string, s1: string, a2: string, s2: string)
    requires NoChar(s1, ':') && NoChar(s2, ':')
    requires a1 + ":" + s1 == a2 + ":" + s2
    ensures a1 == a2 && s1 == s2
  {
    var k := a1 + ":" + s1;
    LastColonAfter(a1, s1);
    LastColonAfter(a2, s2);
    assert |a1| == |a2|;
    assert s1 == k[|a1| + 1..] == s2;
    assert a1 == k[..|a1|] == a2;
  }

  /** The index of the last ':' in t, if any. */
  function LastColon(t: string): Option<nat>
    decreases |t|
  {
    if |t| == 0 then None
    else if t[|t| - 1] == ':' then Some(|t| - 1)
    else LastColon(t[..|t| - 1])
  }

  lemma {:induction false} LastColonAfter(a: string, s: string)
    requires NoChar(s, ':')
    ensures LastColon(a + ":" + s) == Some(|a|)
    decreases |s|
  {
    var t := a + ":" + s;
    if |s| > 0 {
      assert t[..|t| - 1] == a + ":" + s[..|s| - 1];
      LastColonAfter(a, s[..|s| - 1]);
    }
  }
}
