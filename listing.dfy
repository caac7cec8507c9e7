/**
 * The start page's listing assembly (app/start.tsx): the edition addresses,
 * the four on-chain reads per edition and the supply map built from them,
 * the merge of indexer editions with that map, the sale list, the sales
 * total and the "Load More" display limits.
 */
module Listing {
  import opened Wrappers
  import opened Text
  import opened JsonValues
  import opened Sorting

  // ----- edition addresses and on-chain reads -----

  /** `normalizedEditions`: the factory's list lowercased when it is an array, else the server's list. */
  function NormalizedEditions(fromContract: Option<seq<string>>, initialEditions: seq<string>): (r: seq<string>)
    ensures fromContract.None? ==> r == initialEditions
    ensures fromContract.Some? ==>
      (|r| == |fromContract.value| && forall i | 0 <= i < |r| :: r[i] == ToLowerAscii(fromContract.value[i]))
    ensures fromContract.Some? ==> forall i, j | 0 <= i < |r| && 0 <= j < |r[i]| :: !('A' <= r[i][j] <= 'Z')
  {
    match fromContract
    case None => initialEditions
    case Some(addresses) => seq(|addresses|, i requires 0 <= i < |addresses| => ToLowerAscii(addresses[i]))
  }

  datatype ReadFunction = TotalSupplyRead | NextTokenIdRead | PriceRead | IsFreeMintRead

  /** The four reads issued for each edition, in this order. */
  const ReadsPerEdition: seq<ReadFunction> := [TotalSupplyRead, NextTokenIdRead, PriceRead, IsFreeMintRead]

  datatype ReadCall = ReadCall(address: string, functionName: ReadFunction)

  /** The contract read list: `editionContracts.flatMap(...)`. */
  function ReadCalls(editions: seq<string>): (r: seq<ReadCall>)
    ensures |r| == 4 * |editions|
  {
    if editions == [] then []
    else
      var a := editions[|editions| - 1];
      ReadCalls(editions[..|editions| - 1])
        + [ReadCall(a, TotalSupplyRead), ReadCall(a, NextTokenIdRead), ReadCall(a, PriceRead), ReadCall(a, IsFreeMintRead)]
  }

  /** Read 4i+j is the j-th of the four reads of edition i. */
  lemma {:induction false} ReadCallOrder(editions: seq<string>, i: nat, j: nat)
    requires i < |editions| && j < 4
    ensures ReadCalls(editions)[4 * i + j] == ReadCall(editions[i], ReadsPerEdition[j])
  {
    var n := |editions|;
    var init := editions[..n - 1];
    if i < n - 1 {
      ReadCallOrder(init, i, j);
      assert init[i] == editions[i];
    }
  }

  /** A read's result: an unsigned integer (a bigint) or a boolean. */
  datatype ReadValue = UInt(n: nat) | Flag(b: bool)

  /** `Number(result)` */
  function NumberOfRead(v: ReadValue): nat {
    match v
    case UInt(n) => n
    case Flag(b) => if b then 1 else 0
  }

  /** `result.toString()` */
  function TextOfRead(v: ReadValue): (t: string)
    ensures v.UInt? ==> t == NatToString(v.n)
    ensures t != ""
  {
    match v
    case UInt(n) => NatToString(n)
    case Flag(b) => if b then "true" else "false"
  }

  /** JavaScript truthiness of a read result. */
  predicate ReadTruthy(v: ReadValue) {
    match v
    case UInt(n) => n != 0
    case Flag(b) => b
  }

  datatype SupplyEntry = SupplyEntry(totalSupply: nat, nextTokenId: nat, price: string, isFreeMint: ReadValue)

  /** `contractData[k]?.result`: undefined past the end or when the read failed. */
  function ResultAt(data: seq<Option<ReadValue>>, k: nat): (r: Option<ReadValue>)
    ensures r.Some? ==> k < |data| && data[k] == r
  {
    if k < |data| then data[k] else None
  }

  /** The entry for edition i, present only when all four of its results are. */
  function EntryAt(data: seq<Option<ReadValue>>, i: nat): (r: Option<SupplyEntry>)
    ensures r.Some? <==> ResultAt(data, 4 * i).Some? && ResultAt(data, 4 * i + 1).Some?
                         && ResultAt(data, 4 * i + 2).Some? && ResultAt(data, 4 * i + 3).Some?
    ensures r.Some? ==>
      (r.value.totalSupply == NumberOfRead(data[4 * i].value)
       && r.value.nextTokenId == NumberOfRead(data[4 * i + 1].value)
       && r.value.price == TextOfRead(data[4 * i + 2].value)
       && r.value.isFreeMint == data[4 * i + 3].value)
  {
    var totalSupply := ResultAt(data, 4 * i);
    var nextTokenId := ResultAt(data, 4 * i + 1);
    var price := ResultAt(data, 4 * i + 2);
    var isFreeMint := ResultAt(data, 4 * i + 3);
    if totalSupply.Some? && nextTokenId.Some? && price.Some? && isFreeMint.Some? then
      Some(SupplyEntry(NumberOfRead(totalSupply.value), NumberOfRead(nextTokenId.value),
                       TextOfRead(price.value), isFreeMint.value))
    else None
  }

  /** The supply map after the first |editions| iterations of the loop. */
  function SupplyMapSpec(editions: seq<string>, contractData: Option<seq<Option<ReadValue>>>): (m: map<string, SupplyEntry>)
    ensures contractData.None? ==> m == map[]
    ensures forall a | a in m :: a in editions
  {
    if contractData.None? || editions == [] then map[]
    else
      var n := |editions| - 1;
      var m := SupplyMapSpec(editions[..n], contractData);
      match EntryAt(contractData.value, n)
      case None => m
      case Some(e) => m[editions[n] := e]
  }

  /** `supplyMap`: fills the map edition by edition, keyed by address. */
  method BuildSupplyMap(editions: seq<string>, contractData: Option<seq<Option<ReadValue>>>)
    returns (m: map<string, SupplyEntry>)
    ensures m == SupplyMapSpec(editions, contractData)
  {
    m := map[];
    if contractData.Some? {
      var data := contractData.value;
      var i := 0;
      while i < |editions|
        invariant 0 <= i <= |editions|
        invariant m == SupplyMapSpec(editions[..i], contractData)
      {
        SupplyMapStep(editions, data, i);
        EntryOfReads(data, i);
        var totalSupply := ResultAt(data, i * 4);
        var nextTokenId := ResultAt(data, i * 4 + 1);
        var price := ResultAt(data, i * 4 + 2);
        var isFreeMint := ResultAt(data, i * 4 + 3);
        if totalSupply.Some? && nextTokenId.Some? && price.Some? && isFreeMint.Some? {
          m := m[editions[i] := SupplyEntry(NumberOfRead(totalSupply.value), NumberOfRead(nextTokenId.value),
                                             TextOfRead(price.value), isFreeMint.value)];
        }
        i := i + 1;
      }
      assert editions[..|editions|] == editions;
    }
  }

  /** EntryAt spelled out on the loop's four reads. */
  lemma EntryOfReads(data: seq<Option<ReadValue>>, i: nat)
    ensures var ts, nt, pr, fm := ResultAt(data, i * 4), ResultAt(data, i * 4 + 1), ResultAt(data, i * 4 + 2), ResultAt(data, i * 4 + 3);
      EntryAt(data, i) ==
        if ts.Some? && nt.Some? && pr.Some? && fm.Some? then
          Some(SupplyEntry(NumberOfRead(ts.value), NumberOfRead(nt.value), TextOfRead(pr.value), fm.value))
        else None
  {
    assert i * 4 == 4 * i;
  }

  /** One more iteration of the loop adds edition i's entry, when it has one. */
  lemma SupplyMapStep(editions: seq<string>, data: seq<Option<ReadValue>>, i: nat)
    requires i < |editions|
    ensures SupplyMapSpec(editions[..i + 1], Some(data)) ==
      match EntryAt(data, i)
      case None => SupplyMapSpec(editions[..i], Some(data))
      case Some(e) => SupplyMapSpec(editions[..i], Some(data))[editions[i] := e]
  {
    assert editions[..i + 1][..i] == editions[..i];
  }

  /** Some edition listed at address a has all four results. */
  predicate HasEntry(editions: seq<string>, data: seq<Option<ReadValue>>, a: string) {
    exists i | 0 <= i < |editions| :: editions[i] == a && EntryAt(data, i).Some?
  }

  lemma HasEntrySnoc(editions: seq<string>, data: seq<Option<ReadValue>>, a: string)
    requires editions != []
    ensures var n := |editions| - 1;
      HasEntry(editions, data, a) <==> HasEntry(editions[..n], data, a) || (editions[n] == a && EntryAt(data, n).Some?)
  {
    HasEntryPrefix(editions, data, a);
    HasEntryLast(editions, data, a);
  }

  lemma HasEntryPrefix(editions: seq<string>, data: seq<Option<ReadValue>>, a: string)
    requires editions != []
    ensures HasEntry(editions[..|editions| - 1], data, a) ==> HasEntry(editions, data, a)
  {
    var init := editions[..|editions| - 1];
    if HasEntry(init, data, a) {
      var i :| 0 <= i < |init| && init[i] == a && EntryAt(data, i).Some?;
      assert editions[i] == a;
    }
  }

  lemma HasEntryLast(editions: seq<string>, data: seq<Option<ReadValue>>, a: string)
    requires editions != []
    ensures var n := |editions| - 1;
      HasEntry(editions, data, a) ==> HasEntry(editions[..n], data, a) || (editions[n] == a && EntryAt(data, n).Some?)
  {
    var n := |editions| - 1;
    if HasEntry(editions, data, a) {
      var i :| 0 <= i < |editions| && editions[i] == a && EntryAt(data, i).Some?;
      var init := editions[..n];
      if i < n {
        assert init[i] == a && EntryAt(data, i).Some?;
        assert HasEntry(init, data, a);
      } else {
        assert editions[n] == a && EntryAt(data, n).Some?;
      }
    }
  }

  /** An address is in the supply map exactly when one of its editions has all four results. */
  lemma {:induction false} SupplyMapKeys(editions: seq<string>, data: seq<Option<ReadValue>>, a: string)
    ensures a in SupplyMapSpec(editions, Some(data)) <==> HasEntry(editions, data, a)
  {
    if editions != [] {
      var n := |editions| - 1;
      SupplyMapKeys(editions[..n], data, a);
      HasEntrySnoc(editions, data, a);
    }
  }

  /** For an address listed more than once, the last edition with all four results wins. */
  lemma {:induction false} SupplyMapLastWins(editions: seq<string>, data: seq<Option<ReadValue>>, i: nat)
    requires i < |editions| && EntryAt(data, i).Some?
    requires forall j | i < j < |editions| :: editions[j] == editions[i] ==> EntryAt(data, j).None?
    ensures editions[i] in SupplyMapSpec(editions, Some(data))
    ensures SupplyMapSpec(editions, Some(data))[editions[i]] == EntryAt(data, i).value
  {
    var n := |editions| - 1;
    var init := editions[..n];
    if i < n {
      assert init[i] == editions[i];
      SupplyMapLastWins(init, data, i);
    }
  }

  // ----- editions -----

  datatype TokenRecord = TokenRecord(id: string, tokenId: Option<string>, tokenURI: Option<string>)

  /** An edition as the indexer returns it. */
  datatype EditionRecord = EditionRecord(
    id: string, name: Option<string>, editionSize: Option<string>, price: Option<string>,
    isFreeMint: Option<bool>, launchpadFee: Option<string>, createdAt: Option<string>,
    nextTokenId: Option<string>, totalSupply: Option<string>, tokens: seq<TokenRecord>)

  /** A value that is a number or a string, as `nextTokenId` ends up. */
  datatype NumOrText = NumberValue(n: nat) | TextValue(s: string)

  datatype ListedToken = ListedToken(id: string, tokenId: nat, tokenURI: Option<string>)

  datatype ListedEdition = ListedEdition(
    id: string, name: string, editionSize: string, price: string, isFreeMint: bool,
    launchpadFee: string, nextTokenId: NumOrText, totalSupply: nat, createdAt: nat,
    tokens: seq<ListedToken>, imageSrc: Option<string>, tokenURI: Option<string>)

  /** A server-prepared image for an edition address. */
  datatype EditionImage = EditionImage(address: string, imageSrc: string)

  /** `imageCache.get(id)`, the cache filled in order so a later entry replaces an earlier one. */
  function CachedImage(images: seq<EditionImage>, id: string): Option<string> {
    if images == [] then None
    else
      var n := |images| - 1;
      if images[n].address == id then Some(images[n].imageSrc) else CachedImage(images[..n], id)
  }

  /** No image exactly when no cached entry has the address. */
  lemma {:induction false} CachedImageNone(images: seq<EditionImage>, id: string)
    ensures CachedImage(images, id).None? <==> forall i | 0 <= i < |images| :: images[i].address != id
  {
    if images != [] {
      var n := |images| - 1;
      CachedImageNone(images[..n], id);
      assert forall i | 0 <= i < n :: images[..n][i] == images[i];
    }
  }

  /** Otherwise the image is that of the last entry with the address. */
  lemma {:induction false} CachedImageLast(images: seq<EditionImage>, id: string)
    requires CachedImage(images, id).Some?
    ensures exists i | 0 <= i < |images| :: images[i].address == id && images[i].imageSrc == CachedImage(images, id).value
                          && forall j | i < j < |images| :: images[j].address != id
  {
    var n := |images| - 1;
    if images[n].address == id {
      assert images[n].imageSrc == CachedImage(images, id).value;
    } else {
      var init := images[..n];
      CachedImageLast(init, id);
      var i :| 0 <= i < n && init[i].address == id && init[i].imageSrc == CachedImage(init, id).value
               && forall j | i < j < n :: init[j].address != id;
      assert images[i] == init[i];
      assert forall j | i < j < n :: images[j] == init[j];
    }
  }

  /** The on-chain values used when an edition has no supply map entry. */
  const NoSupply := SupplyEntry(0, 0, "0", Flag(false))

  function ListToken(t: TokenRecord): ListedToken {
    ListedToken(t.id, NumberOrZeroField(t.tokenId), if IsTruthy(t.tokenURI) then t.tokenURI else None)
  }

  /** One edition of `sortedEditions` before the sort: the indexer record completed from the supply map. */
  function MergeEdition(e: EditionRecord, supply: map<string, SupplyEntry>, images: seq<EditionImage>): (r: ListedEdition)
    ensures r.id == e.id && |r.tokens| == |e.tokens|
    ensures r.name == OrElse(e.name, "Unknown")
    ensures r.editionSize == OrElse(e.editionSize, "0")
    ensures e.isFreeMint.Some? ==> r.isFreeMint == e.isFreeMint.value
    ensures e.isFreeMint.None? && e.id in supply ==> r.isFreeMint == ReadTruthy(supply[e.id].isFreeMint)
    ensures e.isFreeMint.None? && e.id !in supply ==> !r.isFreeMint
    ensures e.id in supply && supply[e.id].totalSupply != 0 ==> r.totalSupply == supply[e.id].totalSupply
    ensures (e.id !in supply || supply[e.id].totalSupply == 0) ==> r.totalSupply == NumberOrZeroField(e.totalSupply)
    ensures IsTruthy(e.price) ==> r.price == e.price.value
    ensures !IsTruthy(e.price) && e.id !in supply ==> r.price == "0"
    ensures !IsTruthy(e.price) && e.id in supply ==> r.price == OrElse(Some(supply[e.id].price), "0")
    ensures r.launchpadFee == OrElse(e.launchpadFee, "0")
    ensures e.id in supply && supply[e.id].nextTokenId != 0 ==> r.nextTokenId == NumberValue(supply[e.id].nextTokenId)
    ensures (e.id !in supply || supply[e.id].nextTokenId == 0) ==> r.nextTokenId == TextValue(OrElse(e.nextTokenId, "0"))
    ensures forall i | 0 <= i < |e.tokens| ::
              && r.tokens[i].id == e.tokens[i].id
              && r.tokens[i].tokenId == NumberOrZeroField(e.tokens[i].tokenId)
              && (r.tokens[i].tokenURI.Some? <==> IsTruthy(e.tokens[i].tokenURI))
              && (r.tokens[i].tokenURI.Some? ==> r.tokens[i].tokenURI == e.tokens[i].tokenURI)
    ensures r.tokenURI.Some? <==> |e.tokens| > 0 && IsTruthy(e.tokens[0].tokenURI)
    ensures r.tokenURI.Some? ==> r.tokenURI == e.tokens[0].tokenURI
    ensures r.createdAt == NumberOrZeroField(e.createdAt)
    ensures r.imageSrc == CachedImage(images, e.id)
  {
    var sd := if e.id in supply then supply[e.id] else NoSupply;
    ListedEdition(
      e.id,
      OrElse(e.name, "Unknown"),
      OrElse(e.editionSize, "0"),
      OrElse(e.price, if sd.price != "" then sd.price else "0"),
      if e.isFreeMint.Some? then e.isFreeMint.value else ReadTruthy(sd.isFreeMint),
      OrElse(e.launchpadFee, "0"),
      if sd.nextTokenId != 0 then NumberValue(sd.nextTokenId)
      else if IsTruthy(e.nextTokenId) then TextValue(e.nextTokenId.value) else TextValue("0"),
      if sd.totalSupply != 0 then sd.totalSupply else NumberOrZeroField(e.totalSupply),
      NumberOrZeroField(e.createdAt),
      seq(|e.tokens|, i requires 0 <= i < |e.tokens| => ListToken(e.tokens[i])),
      CachedImage(images, e.id),
      if |e.tokens| > 0 && IsTruthy(e.tokens[0].tokenURI) then e.tokens[0].tokenURI else None)
  }

  function CreatedAt(e: ListedEdition): int {
    e.createdAt
  }

  /** `allGraphData?.editions || initialGraphData?.editions || []`: an array, even an empty one, is truthy. */
  function FirstPresent<T>(fetched: Option<seq<T>>, initial: Option<seq<T>>): (r: seq<T>)
    ensures fetched.Some? ==> r == fetched.value
    ensures fetched.None? && initial.Some? ==> r == initial.value
    ensures fetched.None? && initial.None? ==> r == []
  {
    if fetched.Some? then fetched.value else if initial.Some? then initial.value else []
  }

  function MergeAll(data: seq<EditionRecord>, supply: map<string, SupplyEntry>, images: seq<EditionImage>): (r: seq<ListedEdition>)
    ensures |r| == |data| && forall i | 0 <= i < |data| :: r[i] == MergeEdition(data[i], supply, images)
  {
    seq(|data|, i requires 0 <= i < |data| => MergeEdition(data[i], supply, images))
  }

  /** `sortedEditions`: the merged editions, newest `createdAt` first. */
  function SortedEditions(fetched: Option<seq<EditionRecord>>, initial: Option<seq<EditionRecord>>,
                          supply: map<string, SupplyEntry>, images: seq<EditionImage>): (r: seq<ListedEdition>)
    ensures var data := FirstPresent(fetched, initial);
      |r| == |data|
      && multiset(r) == multiset(MergeAll(data, supply, images))
      && SortedDesc(r, CreatedAt)
  {
    var data := FirstPresent(fetched, initial);
    if |data| == 0 then [] else SortDesc(MergeAll(data, supply, images), CreatedAt)
  }

  /** Editions created at the same time stay in the indexer's order. */
  lemma SameAgeKeepsOrder(fetched: Option<seq<EditionRecord>>, initial: Option<seq<EditionRecord>>,
                          supply: map<string, SupplyEntry>, images: seq<EditionImage>, createdAt: nat)
    ensures WithKey(SortedEditions(fetched, initial, supply, images), CreatedAt, createdAt)
         == WithKey(MergeAll(FirstPresent(fetched, initial), supply, images), CreatedAt, createdAt)
  {
    var merged := MergeAll(FirstPresent(fetched, initial), supply, images);
    if merged != [] {
      SortStable(merged, CreatedAt, createdAt);
    }
  }

  // ----- sales -----

  datatype SaleEdition = SaleEdition(id: string, name: Option<string>, editionSize: Option<string>, isFreeMint: Option<bool>)

  /** A sale as the indexer returns it. */
  datatype SaleRecord = SaleRecord(
    id: string, edition: SaleEdition, price: Option<string>, tokenId: Option<string>,
    timestamp: Option<string>, isMint: bool, tokenURI: Option<string>)

  datatype SaleType = MintSale | SecondarySale

  datatype ListedSale = ListedSale(
    id: string, editionAddress: string, editionName: string, tokenId: nat, saleType: SaleType,
    price: string, editionSize: nat, isFreeMint: bool, timestamp: nat,
    imageSrc: Option<string>, tokenURI: Option<string>)

  /** A server-prepared sale image; its token id is kept as the indexer's JSON value. */
  datatype SaleImage = SaleImage(address: string, tokenId: Json, imageSrc: string)

  /** The price shown for a sale: '0' for a mint of a free edition, else the sale price or '0'. */
  function SalePrice(sale: SaleRecord): (p: string)
    ensures sale.isMint && sale.edition.isFreeMint == Some(true) ==> p == "0"
    ensures !(sale.isMint && sale.edition.isFreeMint == Some(true)) ==> p == OrElse(sale.price, "0")
    ensures p != ""
  {
    if sale.isMint then
      if sale.edition.isFreeMint == Some(true) then "0" else OrElse(sale.price, "0")
    else OrElse(sale.price, "0")
  }

  /** `img.tokenId === Number(sale.tokenId)`: strict equality, so only a JSON number can match. */
  predicate StrictEqualsNumber(v: Json, n: Option<nat>) {
    n.Some? && v == JNumber(n.value)
  }

  /** `images.find(matches)?.imageSrc`: the source of the first image that matches. */
  function FirstImage(images: seq<SaleImage>, matches: SaleImage -> bool): (r: Option<string>)
    ensures r.None? <==> forall i | 0 <= i < |images| :: !matches(images[i])
    ensures r.Some? ==> exists i | 0 <= i < |images| ::
      matches(images[i]) && images[i].imageSrc == r.value && forall j | 0 <= j < i :: !matches(images[j])
  {
    if images == [] then None
    else if matches(images[0]) then Some(images[0].imageSrc)
    else
      var r := FirstImage(images[1..], matches);
      assert forall i | 1 <= i < |images| :: images[i] == images[1..][i - 1];
      assert r.Some? ==> exists i | 0 <= i < |images| ::
        matches(images[i]) && images[i].imageSrc == r.value && forall j | 0 <= j < i :: !matches(images[j]) by {
        if r.Some? {
          var k :| 0 <= k < |images[1..]| && matches(images[1..][k]) && images[1..][k].imageSrc == r.value
            && forall j | 0 <= j < k :: !matches(images[1..][j]);
          assert forall j | 1 <= j < k + 1 :: images[j] == images[1..][j - 1];
        }
      }
      r
  }

  /** The match as written: same address and `img.tokenId === Number(sale.tokenId)`. */
  predicate MatchesAsWritten(img: SaleImage, address: string, tokenId: string) {
    img.address == address && StrictEqualsNumber(img.tokenId, JsNumber(tokenId))
  }

  /** The image lookup as written: the first entry whose address and token id strictly equal the sale's. */
  function FindSaleImageAsWritten(images: seq<SaleImage>, address: string, tokenId: string): (r: Option<string>)
    ensures r.None? <==> forall i | 0 <= i < |images| :: !MatchesAsWritten(images[i], address, tokenId)
    ensures r.Some? ==> exists i | 0 <= i < |images| ::
      MatchesAsWritten(images[i], address, tokenId) && images[i].imageSrc == r.value
      && forall j | 0 <= j < i :: !MatchesAsWritten(images[j], address, tokenId)
  {
    FirstImage(images, img => MatchesAsWritten(img, address, tokenId))
  }

  /**
   * The server records each sale image with the sale's token id string; a
   * missing token id is stored as `undefined`, held here as JNull, which is
   * no number.
   */
  function ServerSaleImage(sale: SaleRecord, imageSrc: string): (r: SaleImage)
    ensures r.address == sale.edition.id && r.imageSrc == imageSrc
    ensures sale.tokenId.Some? ==> r.tokenId == JString(sale.tokenId.value)
    ensures sale.tokenId.None? ==> r.tokenId == JNull
    ensures !r.tokenId.JNumber?
  {
    SaleImage(sale.edition.id, if sale.tokenId.Some? then JString(sale.tokenId.value) else JNull, imageSrc)
  }

  /** As written, no image prepared by the server is ever found: a string never strictly equals a number. */
  lemma {:induction false} ServerSaleImagesNeverFound(sales: seq<SaleRecord>, sources: seq<string>, address: string, tokenId: string)
    requires |sources| == |sales|
    ensures FindSaleImageAsWritten(seq(|sales|, i requires 0 <= i < |sales| => ServerSaleImage(sales[i], sources[i])),
                                   address, tokenId) == None
  {
    var images := seq(|sales|, i requires 0 <= i < |sales| => ServerSaleImage(sales[i], sources[i]));
    assert forall i | 0 <= i < |images| :: !images[i].tokenId.JNumber?;
  }

  /** `Number(v)` on a token id held as JSON. */
  function JsonNumber(v: Json): Option<nat> {
    match v
    case JNumber(n) => if n >= 0 then Some(n) else None
    case JString(s) => JsNumber(s)
    case _ => None
  }

  /** The intended match: same address and the token ids equal as numbers. */
  predicate MatchesNumerically(img: SaleImage, address: string, tokenId: string) {
    img.address == address && JsNumber(tokenId).Some? && JsonNumber(img.tokenId) == JsNumber(tokenId)
  }

  /** The lookup as intended: token ids compared as numbers on both sides. */
  function FindSaleImage(images: seq<SaleImage>, address: string, tokenId: string): (r: Option<string>)
    ensures r.None? <==> forall i | 0 <= i < |images| :: !MatchesNumerically(images[i], address, tokenId)
    ensures r.Some? ==> exists i | 0 <= i < |images| ::
      MatchesNumerically(images[i], address, tokenId) && images[i].imageSrc == r.value
      && forall j | 0 <= j < i :: !MatchesNumerically(images[j], address, tokenId)
  {
    FirstImage(images, img => MatchesNumerically(img, address, tokenId))
  }

  /** With numeric comparison, a server-prepared image is found for its own sale. */
  lemma ServerSaleImageFound(sale: SaleRecord, imageSrc: string)
    requires sale.tokenId.Some? && JsNumber(sale.tokenId.value).Some?
    ensures FindSaleImage([ServerSaleImage(sale, imageSrc)], sale.edition.id, sale.tokenId.value) == Some(imageSrc)
  {
  }

  /** One entry of `allSales`. */
  function ListSale(sale: SaleRecord, images: seq<SaleImage>): (r: ListedSale)
    ensures r.saleType == (if sale.isMint then MintSale else SecondarySale)
    ensures r.price == SalePrice(sale)
    ensures r.isFreeMint <==> sale.edition.isFreeMint == Some(true)
    ensures r.timestamp == NumberOrZeroField(sale.timestamp)
    ensures r.imageSrc == FindSaleImage(images, sale.edition.id, if sale.tokenId.Some? then sale.tokenId.value else "")
    ensures r.id == sale.id && r.editionAddress == sale.edition.id
    ensures r.editionName == (if IsTruthy(sale.edition.name) then sale.edition.name.value else "Unknown")
    ensures r.tokenId == NumberOrZeroField(sale.tokenId)
    ensures r.editionSize == NumberOrZeroField(sale.edition.editionSize)
    ensures r.tokenURI.Some? <==> IsTruthy(sale.tokenURI)
    ensures r.tokenURI.Some? ==> r.tokenURI == sale.tokenURI
  {
    ListedSale(
      sale.id, sale.edition.id, OrElse(sale.edition.name, "Unknown"), NumberOrZeroField(sale.tokenId),
      if sale.isMint then MintSale else SecondarySale,
      SalePrice(sale), NumberOrZeroField(sale.edition.editionSize),
      sale.edition.isFreeMint == Some(true), NumberOrZeroField(sale.timestamp),
      FindSaleImage(images, sale.edition.id, if sale.tokenId.Some? then sale.tokenId.value else ""),
      if IsTruthy(sale.tokenURI) then sale.tokenURI else None)
  }

  /** `filter((sale) => sale.tokenId)`: keeps the sales whose token id is a non-empty string, in order. */
  function WithTokenId(sales: seq<SaleRecord>): (r: seq<SaleRecord>)
    ensures |r| <= |sales|
    ensures forall i | 0 <= i < |r| :: IsTruthy(r[i].tokenId)
    ensures |sales| == 1 ==> r == if IsTruthy(sales[0].tokenId) then sales else []
  {
    if sales == [] then []
    else (if IsTruthy(sales[0].tokenId) then [sales[0]] else []) + WithTokenId(sales[1..])
  }

  /** Each sale with a token id is kept as often as it occurs, and no other sale is kept. */
  lemma {:induction false} WithTokenIdCounts(sales: seq<SaleRecord>)
    ensures forall s :: multiset(WithTokenId(sales))[s] == if IsTruthy(s.tokenId) then multiset(sales)[s] else 0
    decreases |sales|
  {
    if sales != [] {
      WithTokenIdCounts(sales[1..]);
      assert sales == [sales[0]] + sales[1..];
      assert multiset(sales) == multiset{sales[0]} + multiset(sales[1..]);
    }
  }

  /** The filter keeps input order: filtering a concatenation filters each part. */
  lemma {:induction false} WithTokenIdAppend(a: seq<SaleRecord>, b: seq<SaleRecord>)
    ensures WithTokenId(a + b) == WithTokenId(a) + WithTokenId(b)
    decreases |a|
  {
    if a != [] {
      assert (a + b)[1..] == a[1..] + b;
      WithTokenIdAppend(a[1..], b);
    } else {
      assert a + b == b;
    }
  }

  function Timestamp(s: ListedSale): int {
    s.timestamp
  }

  /** `allSales`: the sales with a token id, listed, newest first. */
  function AllSales(fetched: Option<seq<SaleRecord>>, initial: Option<seq<SaleRecord>>, images: seq<SaleImage>): (r: seq<ListedSale>)
    ensures var kept := WithTokenId(FirstPresent(fetched, initial));
      |r| == |kept|
      && multiset(r) == multiset(seq(|kept|, i requires 0 <= i < |kept| => ListSale(kept[i], images)))
      && SortedDesc(r, Timestamp)
  {
    var kept := WithTokenId(FirstPresent(fetched, initial));
    SortDesc(seq(|kept|, i requires 0 <= i < |kept| => ListSale(kept[i], images)), Timestamp)
  }

  /** Sales with equal timestamps keep their indexer order. */
  lemma AllSalesStable(fetched: Option<seq<SaleRecord>>, initial: Option<seq<SaleRecord>>, images: seq<SaleImage>, t: int)
    ensures var kept := WithTokenId(FirstPresent(fetched, initial));
      WithKey(AllSales(fetched, initial, images), Timestamp, t)
      == WithKey(seq(|kept|, i requires 0 <= i < |kept| => ListSale(kept[i], images)), Timestamp, t)
  {
    var kept := WithTokenId(FirstPresent(fetched, initial));
    SortStable(seq(|kept|, i requires 0 <= i < |kept| => ListSale(kept[i], images)), Timestamp, t);
  }

  /** `totalSales`: the fetched stats count, else the initial one, else the number of listed sales; None is NaN. */
  function TotalSales(fetchedCount: Option<string>, initialCount: Option<string>, listed: nat): (r: Option<nat>)
    ensures IsTruthy(fetchedCount) ==> r == JsNumber(fetchedCount.value)
    ensures !IsTruthy(fetchedCount) && IsTruthy(initialCount) ==> r == JsNumber(initialCount.value)
    ensures !IsTruthy(fetchedCount) && !IsTruthy(initialCount) ==> r == Some(listed)
  {
    if IsTruthy(fetchedCount) then JsNumber(fetchedCount.value)
    else if IsTruthy(initialCount) then JsNumber(initialCount.value)
    else Some(listed)
  }

  /** Without a truthy stats count, the total is the number of sales that carry a token id. */
  lemma TotalSalesCountsListed(fetchedCount: Option<string>, initialCount: Option<string>,
                               fetched: Option<seq<SaleRecord>>, initial: Option<seq<SaleRecord>>, images: seq<SaleImage>)
    requires !IsTruthy(fetchedCount) && !IsTruthy(initialCount)
    ensures TotalSales(fetchedCount, initialCount, |AllSales(fetched, initial, images)|)
            == Some(|WithTokenId(FirstPresent(fetched, initial))|)
  {
  }

  // ----- display limits -----

  /** How many editions and sales are shown; "Load More" adds 12. */
  class DisplayLimits {
    var mints: nat
    var sales: nat
    /** How many times each "Load More" button has been pressed. */
    ghost var mintLoads: nat
    ghost var salesLoads: nat

    /** Each limit is the initial 12 plus 12 per press. */
    ghost predicate Valid()
      reads this
    {
      mints == 12 + 12 * mintLoads && sales == 12 + 12 * salesLoads
    }

    constructor ()
      ensures mints == 12 && sales == 12
      ensures Valid() && mintLoads == 0 && salesLoads == 0
    {
      mints := 12;
      sales := 12;
      mintLoads := 0;
      salesLoads := 0;
    }

    method LoadMoreMints()
      requires Valid()
      modifies this
      ensures mints == old(mints) + 12 && sales == old(sales)
      ensures Valid() && mintLoads == old(mintLoads) + 1 && salesLoads == old(salesLoads)
    {
      mints := mints + 12;
      mintLoads := mintLoads + 1;
    }

    method LoadMoreSales()
      requires Valid()
      modifies this
      ensures sales == old(sales) + 12 && mints == old(mints)
      ensures Valid() && salesLoads == old(salesLoads) + 1 && mintLoads == old(mintLoads)
    {
      sales := sales + 12;
      salesLoads := salesLoads + 1;
    }
  }

  /** `list.slice(0, limit)` */
  function Visible<T>(s: seq<T>, limit: nat): (r: seq<T>)
    ensures |r| == (if |s| < limit then |s| else limit)
    ensures r == s[..|r|]
  {
    if |s| < limit then s else s[..limit]
  }

  /** The "Load More" button is shown when the list is longer than the limit. */
  predicate ShowsLoadMore(length: nat, limit: nat) {
    length > limit
  }

  /** The button is hidden exactly when every element is already visible. */
  lemma LoadMoreIffHidden<T>(s: seq<T>, limit: nat)
    ensures !ShowsLoadMore(|s|, limit) <==> Visible(s, limit) == s
  {
    if ShowsLoadMore(|s|, limit) {
      assert |Visible(s, limit)| < |s|;
    }
  }

  /**
   * After n presses of a "Load More" button, the first 12 + 12n items of its
   * list (or all of them) are shown, and the button stays exactly while more remain.
   */
  lemma VisibleAfterLoads<T>(editions: seq<T>, sales: seq<T>, limits: DisplayLimits)
    requires limits.Valid()
    ensures var n := 12 + 12 * limits.mintLoads;
      Visible(editions, limits.mints) == editions[..if |editions| < n then |editions| else n]
      && (ShowsLoadMore(|editions|, limits.mints) <==> |editions| > n)
    ensures var n := 12 + 12 * limits.salesLoads;
      Visible(sales, limits.sales) == sales[..if |sales| < n then |sales| else n]
      && (ShowsLoadMore(|sales|, limits.sales) <==> |sales| > n)
  {
  }

  /** The number of presses after which a list of this length is shown whole, and one fewer is not enough. */
  function LoadsToShowAll(length: nat): (n: nat)
    ensures !ShowsLoadMore(length, 12 + 12 * n)
    ensures n > 0 ==> ShowsLoadMore(length, 12 + 12 * (n - 1))
  {
    if length <= 12 then 0
    else
      var q := (length - 1) / 12;
      assert length - 1 == 12 * q + (length - 1) % 12;
      q
  }
}
