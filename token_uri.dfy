/**
 * `processTokenURI` (app/components/NFTImage.tsx): from a token URI that is a
 * data URI (RFC 2397) holding base64 JSON metadata, to the metadata's `image`
 * when that is itself an SVG data URI. Every failure, including the ones
 * that throw inside the `try`, yields null (None).
 */
module TokenUri {
  import opened Wrappers
  import opened Text
  import opened Base64
  import opened JsonValues

  const JsonDataPrefix: string := "data:application/json;base64,"
  const SvgDataPrefix: string := "data:image/svg+xml;base64,"

  /** The JSON data prefix is its 28 comma-free characters followed by its single comma. */
  const JsonDataHead: string := "data:application/json;base64"

  lemma PrefixShape()
    ensures JsonDataPrefix == JsonDataHead + [','] && NoChar(JsonDataHead, ',')
  {
  }

  /** After the prefix, `uri.split(',')` has the prefix's head, then the fields of the rest. */
  lemma SplitPrefixed(uri: string)
    requires StartsWith(uri, JsonDataPrefix)
    ensures Split(uri, ',') == [JsonDataHead] + Split(uri[|JsonDataPrefix|..], ',')
  {
    PrefixShape();
    assert uri == JsonDataHead + [','] + uri[|JsonDataPrefix|..];
    SplitAtFirst(JsonDataHead, ',', uri[|JsonDataPrefix|..]);
  }

  /** `uri.split(',')[1]`: the text after the prefix up to the next comma. */
  function Payload(uri: string): (p: string)
    requires StartsWith(uri, JsonDataPrefix)
    ensures NoChar(p, ',')
    ensures StartsWith(uri[|JsonDataPrefix|..], p)
  {
    SplitPrefixed(uri);
    var rest := uri[|JsonDataPrefix|..];
    JoinSplit(rest, ',');
    var f := Split(rest, ',');
    assert |f| > 1 ==> rest == f[0] + [','] + Join(f[1..], ',');
    f[0]
  }

  /** What reading `metadata.image` after `JSON.parse(atob(payload))` gives. */
  datatype ImageField =
    | DecodeThrew        // atob threw, JSON.parse threw, or metadata is null
    | NoImage            // metadata.image is undefined
    | ImageValue(value: Json)

  function ReadImageField(uri: string, parse: JsonParser): (f: ImageField)
    requires StartsWith(uri, JsonDataPrefix)
    ensures f == DecodeThrew <==>
      Atob(Payload(uri)).None? || parse(Atob(Payload(uri)).value).None?
      || parse(Atob(Payload(uri)).value) == Some(JNull)
    ensures f != DecodeThrew ==>
      var metadata := parse(Atob(Payload(uri)).value).value;
      (f == NoImage <==> GetProperty(metadata, "image") == Undefined)
      && (f.ImageValue? ==> GetProperty(metadata, "image") == Defined(f.value))
  {
    match Atob(Payload(uri))
    case None => DecodeThrew
    case Some(text) =>
      match parse(text)
      case None => DecodeThrew
      case Some(metadata) =>
        match GetProperty(metadata, "image")
        case TypeError => DecodeThrew
        case Undefined => NoImage
        case Defined(v) => ImageValue(v)
  }

  /** A JSON string that begins with the SVG data prefix. */
  predicate IsSvgDataUri(v: Json) {
    v.JString? && StartsWith(v.s, SvgDataPrefix)
  }

  /** The metadata image the URI carries, when it is an SVG data URI. */
  predicate CarriesSvgImage(uri: string, parse: JsonParser, image: string) {
    StartsWith(uri, JsonDataPrefix) && ReadImageField(uri, parse) == ImageValue(JString(image))
      && StartsWith(image, SvgDataPrefix)
  }

  function ProcessTokenURI(uri: string, parse: JsonParser): (r: Option<string>)
    ensures !StartsWith(uri, JsonDataPrefix) ==> r == None
    ensures r.Some? ==> StartsWith(r.value, SvgDataPrefix)
    ensures r.Some? ==> CarriesSvgImage(uri, parse, r.value)
    ensures r.None? ==> forall image :: !CarriesSvgImage(uri, parse, image)
  {
    if !StartsWith(uri, JsonDataPrefix) then None
    else
      match ReadImageField(uri, parse)
      case ImageValue(v) =>
        if !Truthy(v) then None
        else if !v.JString? then None      // startsWith is not a function: TypeError, caught
        else if !StartsWith(v.s, SvgDataPrefix) then None
        else Some(v.s)
      case _ => None
  }

  /** Bad base64 after the prefix yields null instead of throwing. */
  lemma BadBase64YieldsNull(uri: string, parse: JsonParser)
    requires StartsWith(uri, JsonDataPrefix) && ForgivingDecode(Payload(uri)).None?
    ensures ProcessTokenURI(uri, parse) == None
  {
  }

  /** Text that `JSON.parse` rejects yields null. */
  lemma BadJsonYieldsNull(uri: string, parse: JsonParser)
    requires StartsWith(uri, JsonDataPrefix) && Atob(Payload(uri)).Some?
    requires parse(Atob(Payload(uri)).value).None?
    ensures ProcessTokenURI(uri, parse) == None
  {
  }

  /** `null` metadata (reading `.image` throws) and a truthy non-string image yield null. */
  lemma NullMetadataOrNonStringImageYieldsNull(uri: string, parse: JsonParser)
    requires StartsWith(uri, JsonDataPrefix) && Atob(Payload(uri)).Some?
    requires var m := parse(Atob(Payload(uri)).value);
      m == Some(JNull) || (m.Some? && GetProperty(m.value, "image").Defined? && !GetProperty(m.value, "image").value.JString?)
    ensures ProcessTokenURI(uri, parse) == None
  {
  }

  /** Only the text up to the next comma is decoded: anything after a second comma is ignored. */
  lemma {:induction false} TextAfterSecondCommaIgnored(p: string, q: string, parse: JsonParser)
    requires NoChar(p, ',')
    ensures ProcessTokenURI(JsonDataPrefix + p + "," + q, parse) == ProcessTokenURI(JsonDataPrefix + p, parse)
  {
    var u1 := JsonDataPrefix + p + "," + q;
    var u2 := JsonDataPrefix + p;
    assert StartsWith(u1, JsonDataPrefix) && StartsWith(u2, JsonDataPrefix);
    assert u1[|JsonDataPrefix|..] == p + [','] + q;
    assert u2[|JsonDataPrefix|..] == p;
    SplitAtFirst(p, ',', q);
    SplitNoSep(p, ',');
    assert Payload(u1) == p == Payload(u2);
  }

  /**
   * End to end: metadata bytes whose parsed `image` is an SVG data URI, encoded
   * with base64 behind the JSON data prefix, give that image back unchanged.
   */
  lemma {:induction false} EncodedMetadataYieldsImage(metadata: seq<byte>, parse: JsonParser, meta: Json, image: string)
    requires parse(BytesToText(metadata)) == Some(meta)
    requires GetProperty(meta, "image") == Defined(JString(image))
    requires StartsWith(image, SvgDataPrefix)
    ensures ProcessTokenURI(JsonDataPrefix + Encode(metadata), parse) == Some(image)
  {
    var e := Encode(metadata);
    var uri := JsonDataPrefix + e;
    assert StartsWith(uri, JsonDataPrefix);
    assert uri[|JsonDataPrefix|..] == e;
    EncodeHasNoComma(metadata);
    SplitNoSep(e, ',');
    assert Payload(uri) == e;
    DecodeEncode(metadata);
    assert |image| > 0;
  }
}
