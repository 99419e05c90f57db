/** CCMSEncapsulatedContentInfo: a content type and an optional EXPLICIT [0] content
    (section 5.2 of RFC 2630). */
module CmsEncapsulatedContentInfo {
  import opened Outcomes
  import opened DerCodec
  import opened Asn1

  datatype ContentInfo = ContentInfo(contentType: bytes, content: Option<bytes>)

  const ID_DATA: bytes := [0x2A, 0x86, 0x48, 0x86, 0xF7, 0x0D, 0x01, 0x07, 0x01]
  const CONTENT_TAG: nat := 0

  function EncContentInfo(c: ContentInfo): (r: Enc)
    ensures r.Node? && r.id == SEQUENCE_ID
  {
    Node(SEQUENCE_ID, [EncOid(c.contentType)] +
      match c.content
      case Some(octets) => [ExplicitTag(EncOctets(octets), CONTENT_TAG)]
      case None => [])
  }

  function DecContent(items: seq<Item>): (r: Outcome<Option<bytes>>)
    requires 1 <= |items|
    ensures r != Panic
  {
    if |items| == 1 then Ok(None)
    else if items[1].Tag() != CONTENT_TAG then Leave(KErrArgument)
    else
      var octets :- DecFirst(items[1].contents);
      Ok(Some(octets))
  }

  function DecContentInfo(raw: bytes): (r: Outcome<ContentInfo>)
    ensures r != Panic
  {
    var items :- DecodeBoundedSequence(raw, 1, 2);
    var content :- DecContent(items);
    Ok(ContentInfo(items[0].contents, content))
  }

  lemma ContentInfoRoundTrip(c: ContentInfo)
    requires Fits(EncContentInfo(c))
    ensures DecContentInfo(Der(EncContentInfo(c))) == Ok(c)
  {
    var t := EncContentInfo(c);
    DecodeNode(t);
    if c.content.Some? {
      assert Fits(t.kids[1]);
      ReadWholeDer(EncOctets(c.content.value));
    }
  }

  class EncapsulatedContentInfo {
    var iContentType: bytes
    var iContent: Option<bytes>

    function Value(): ContentInfo
      reads this
    {
      ContentInfo(iContentType, iContent)
    }

    constructor (contentType: bytes, content: Option<bytes>)
      ensures Value() == ContentInfo(contentType, content)
    {
      iContentType, iContent := contentType, content;
    }

    /** A content that cannot be decoded leaves the new type beside the old content. */
    method DecodeL(raw: bytes) returns (r: Outcome<()>)
      modifies this
      ensures r == Status(DecContentInfo(raw))
      ensures r.Ok? ==> Value() == DecContentInfo(raw).value
      ensures !r.Ok? ==> iContent == old(iContent)
    {
      var itemsData :- DecodeBoundedSequence(raw, 1, 2);
      iContentType := itemsData[0].contents;
      var contDesc: Option<bytes> := None;
      if |itemsData| > 1 {
        if itemsData[1].Tag() != CONTENT_TAG {
          return Leave(KErrArgument);
        }
        var octets :- DecFirst(itemsData[1].contents);
        contDesc := Some(octets);
      }
      iContent := contDesc;
      r := Ok(());
    }

    method SetContentL(content: Option<bytes>)
      modifies this`iContent
      ensures iContent == content
    {
      iContent := content;
    }
  }
}
