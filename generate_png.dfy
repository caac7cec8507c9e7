/**
 * The GET handler of app/api/generate-png/route.ts after its indexer query:
 * a linear chain of checks from the first token's `tokenURI` to a 400, 500
 * or 200 JSON response. The query is an input: it either threw or produced
 * the (possibly missing) tokenURI string.
 */
module GeneratePng {
  import opened Wrappers
  import opened Text
  import opened JsonValues
  import opened Base64
  import opened TokenUri

  datatype Body = ErrorBody(error: string) | SvgBody(svgDataUri: string)

  datatype Response = Response(status: nat, body: Body)

  /** The awaited `client.query`: it threw, or `data?.edition?.tokens?.[0]?.tokenURI`. */
  datatype QueryResult = QueryThrew | QueryData(tokenURI: Option<string>)

  const InvalidTokenUri: Response := Response(400, ErrorBody("Invalid tokenURI"))
  const NoSvgImage: Response := Response(400, ErrorBody("No SVG image found"))
  const GenerateFailed: Response := Response(500, ErrorBody("Failed to generate PNG"))

  function Get(query: QueryResult, parse: JsonParser): (r: Response)
    ensures r.status in {200, 400, 500}
    ensures r.status == 200 <==> r.body.SvgBody?
    ensures r.status == 200 ==> StartsWith(r.body.svgDataUri, SvgDataPrefix)
    ensures r.status == 500 ==> r == GenerateFailed
  {
    match query
    case QueryThrew => GenerateFailed
    case QueryData(tokenURI) =>
      if tokenURI.None? || tokenURI.value == "" || !StartsWith(tokenURI.value, JsonDataPrefix) then InvalidTokenUri
      else
        match ReadImageField(tokenURI.value, parse)
        case DecodeThrew => GenerateFailed
        case NoImage => NoSvgImage
        case ImageValue(v) =>
          if !Truthy(v) then NoSvgImage
          else if !v.JString? then GenerateFailed   // metadata.image.startsWith is not a function
          else if !StartsWith(v.s, SvgDataPrefix) then NoSvgImage
          else Response(200, SvgBody(v.s))
  }

  /** A missing token URI, or one without the JSON data prefix, is a 400 'Invalid tokenURI'. */
  lemma InvalidTokenUriExactly(tokenURI: Option<string>, parse: JsonParser)
    ensures Get(QueryData(tokenURI), parse) == InvalidTokenUri
        <==> (tokenURI.None? || !StartsWith(tokenURI.value, JsonDataPrefix))
  {
  }

  /** Decoded metadata whose image is missing, empty or not an SVG data URI string is a 400 'No SVG image found'. */
  lemma NoSvgImageCases(uri: string, parse: JsonParser)
    requires StartsWith(uri, JsonDataPrefix)
    requires var f := ReadImageField(uri, parse);
      f == NoImage || (f.ImageValue? && !Truthy(f.value))
      || (f.ImageValue? && f.value.JString? && !StartsWith(f.value.s, SvgDataPrefix))
    ensures Get(QueryData(Some(uri)), parse) == NoSvgImage
  {
  }

  /** `null` metadata or a truthy non-string image throws inside the try: 500, not 400. */
  lemma ThrowingMetadataIs500(uri: string, parse: JsonParser, text: string)
    requires StartsWith(uri, JsonDataPrefix) && Atob(Payload(uri)) == Some(text)
    requires parse(text) == Some(JNull)
      || (parse(text).Some? && GetProperty(parse(text).value, "image").Defined?
          && Truthy(GetProperty(parse(text).value, "image").value)
          && !GetProperty(parse(text).value, "image").value.JString?)
    ensures Get(QueryData(Some(uri)), parse) == GenerateFailed
  {
  }

  /**
   * Every exception inside the try is a 500: a thrown query, a payload atob
   * rejects, text JSON.parse rejects, null metadata, or a truthy non-string
   * image whose `startsWith` is not a function; nothing else is.
   */
  lemma FailedExactly(query: QueryResult, parse: JsonParser)
    ensures Get(query, parse) == GenerateFailed <==>
      query.QueryThrew?
      || (query.tokenURI.Some? && StartsWith(query.tokenURI.value, JsonDataPrefix)
          && var text := Atob(Payload(query.tokenURI.value));
             (text.None? || parse(text.value).None? || parse(text.value) == Some(JNull)
              || (GetProperty(parse(text.value).value, "image").Defined?
                  && Truthy(GetProperty(parse(text.value).value, "image").value)
                  && !GetProperty(parse(text.value).value, "image").value.JString?)))
  {
    if query.QueryData? && query.tokenURI.Some? && query.tokenURI.value == "" {
      assert !StartsWith(query.tokenURI.value, JsonDataPrefix);
    }
  }

  /**
   * The handler answers 200 for exactly the URIs that processTokenURI
   * accepts, and the SVG data URI it returns is the same string.
   */
  lemma {:induction false} GetAgreesWithProcessTokenURI(uri: string, parse: JsonParser)
    ensures Get(QueryData(Some(uri)), parse).status == 200 <==> ProcessTokenURI(uri, parse).Some?
    ensures ProcessTokenURI(uri, parse).Some? ==>
      Get(QueryData(Some(uri)), parse) == Response(200, SvgBody(ProcessTokenURI(uri, parse).value))
  {
    if uri == "" {
      assert !StartsWith(uri, JsonDataPrefix);
    }
  }

  /** Success returns the metadata image unchanged, with no re-encoding. */
  lemma SuccessIsMetadataImage(uri: string, parse: JsonParser)
    requires Get(QueryData(Some(uri)), parse).status == 200
    ensures CarriesSvgImage(uri, parse, Get(QueryData(Some(uri)), parse).body.svgDataUri)
  {
  }
}
