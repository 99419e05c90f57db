/** Which octets end the thread when they are decoded as a signed-data or an
    authenticated-data: the conditions of the parts, in the order in which the cursor gets
    to them. */
module CmsThreadEnds {
  import opened Outcomes
  import opened DerCodec
  import opened Asn1
  import opened AlgorithmIdentifier
  import opened CmsAttribute
  import opened CmsEncapsulatedContentInfo
  import opened CmsSignerInfo
  import opened CmsCertificateChoices
  import opened CmsCertificateList
  import opened CmsSignedData
  import opened CmsOriginatorInfo
  import opened CmsAuthenticatedData

  // ---------------------------------------------------------------- signed data

  /** Unlike in an originator info, an empty list is harmless here. */
  predicate CertificatesEndThread(items: seq<Item>) {
    && TagAt(items, 3, CERTIFICATES_TAG)
    && Children(items[3]).Ok?
    && FirstEnds(Children(items[3]).value, DecChoice, ChoiceEndsThread)
  }

  lemma CertificatesPanicExact(items: seq<Item>)
    ensures DecListAt(items, 3, CERTIFICATES_TAG, DecChoice) == Panic <==> CertificatesEndThread(items)
  {
    hide DecChoice, ChoiceEndsThread, Children, DecodeAll, FirstEnds;
    if 3 < |items| && Children(items[3]).Ok? {
      var list := Children(items[3]).value;
      forall i | 0 <= i < |list|
        ensures DecChoice(list[i].Encoding()) == Panic <==> ChoiceEndsThread(list[i].Encoding())
      {
        ChoicePanicExact(list[i].Encoding());
      }
      DecodeAllEnds(list, DecChoice, ChoiceEndsThread);
    }
  }

  lemma CrlsNeverPanic(items: seq<Item>, pos: nat)
    ensures DecListAt(items, pos, CRLS_TAG, DecCrl) != Panic
  {
    hide DecCrl, Children;
    if pos < |items| && Children(items[pos]).Ok? {
      DecodeAllSafe(Children(items[pos]).value, DecCrl);
    }
  }

  predicate SignersEndThread(raw: bytes) {
    DecodeSequence(raw).Ok? && FirstEnds(DecodeSequence(raw).value, DecSignerInfo, SignerEndsThread)
  }

  lemma SignersPanicExact(raw: bytes)
    ensures DecSignerInfos(raw) == Panic <==> SignersEndThread(raw)
  {
    hide DecSignerInfo, SignerEndsThread, DecodeSequence, DecodeAll, FirstEnds;
    if DecodeSequence(raw).Ok? {
      var list := DecodeSequence(raw).value;
      forall i | 0 <= i < |list|
        ensures DecSignerInfo(list[i].Encoding()) == Panic <==> SignerEndsThread(list[i].Encoding())
      {
        SignerPanicExact(list[i].Encoding());
      }
      DecodeAllEnds(list, DecSignerInfo, SignerEndsThread);
    }
  }

  /** The three fields before the certificates can be read, and the certificates end the
      thread, or both lists can be read and the signer infos behind them do. */
  predicate SignedItemsEndThread(items: seq<Item>)
    requires 4 <= |items|
  {
    && DecInt(items[0]).Ok?
    && DecDigestAlgorithms(items[1].Encoding()).Ok?
    && DecContentInfo(items[2].Encoding()).Ok?
    && (CertificatesEndThread(items)
      || (DecListAt(items, 3, CERTIFICATES_TAG, DecChoice).Ok?
        && var pos := 3 + if TagAt(items, 3, CERTIFICATES_TAG) then 1 else 0;
          && DecListAt(items, pos, CRLS_TAG, DecCrl).Ok?
          && var pos := pos + if TagAt(items, pos, CRLS_TAG) then 1 else 0;
            pos < |items| && SignersEndThread(items[pos].Encoding())))
  }

  predicate SignedDataEndsThread(raw: bytes) {
    DecodeBoundedSequence(raw, 4, 6).Ok? && SignedItemsEndThread(DecodeBoundedSequence(raw, 4, 6).value)
  }

  lemma SignedDataPanicExact(raw: bytes)
    ensures DecSignedData(raw) == Panic <==> SignedDataEndsThread(raw)
  {
    hide DecodeBoundedSequence, DecInt, DecDigestAlgorithms, DecContentInfo, DecListAt, CertificatesEndThread,
      DecSignerInfos, SignersEndThread, Tlv, DecChoice, DecCrl;
    if DecodeBoundedSequence(raw, 4, 6).Ok? {
      var items := DecodeBoundedSequence(raw, 4, 6).value;
      CertificatesPanicExact(items);
      var pos := 3 + if TagAt(items, 3, CERTIFICATES_TAG) then 1 else 0;
      CrlsNeverPanic(items, pos);
      var next := pos + if TagAt(items, pos, CRLS_TAG) then 1 else 0;
      if next < |items| {
        SignersPanicExact(items[next].Encoding());
      }
    }
  }

  // --------------------------------------------------------- authenticated data

  predicate OriginatorFieldEndsThread(items: seq<Item>)
    requires 2 <= |items|
  {
    items[1].Tag() == ORIGINATOR_INFO_TAG && ImplicitOriginatorEndsThread(items[1].Encoding(), ORIGINATOR_INFO_TAG)
  }

  lemma OriginatorFieldPanicExact(items: seq<Item>)
    requires 2 <= |items|
    ensures DecOriginatorAt(items) == Panic <==> OriginatorFieldEndsThread(items)
  {
    hide DecImplicitOriginatorInfo, ImplicitOriginatorEndsThread;
    OriginatorInfoPanicExact(items[1].Encoding(), ORIGINATOR_INFO_TAG);
  }

  /** The version can be read, and the originator info ends the thread, or it can be read and
      the set of recipients behind it is empty. */
  predicate HeadEndsThread(items: seq<Item>)
    requires 5 <= |items|
  {
    && DecInt(items[0]).Ok?
    && (OriginatorFieldEndsThread(items)
      || (DecOriginatorAt(items).Ok?
        && DecodeSequence(items[if items[1].Tag() == ORIGINATOR_INFO_TAG then 2 else 1].Encoding()) == Ok([])))
  }

  lemma HeadPanicExact(items: seq<Item>)
    requires 5 <= |items|
    ensures DecAuthHead(items) == Panic <==> HeadEndsThread(items)
  {
    hide DecInt, DecOriginatorAt, OriginatorFieldEndsThread, DecRecipients, DecodeSequence, DecAlgorithm, DecDigestAt,
      Tlv;
    OriginatorFieldPanicExact(items);
    PresenceDecodes(items, 2);
    RecipientsPanicExact(items[if items[1].Tag() == ORIGINATOR_INFO_TAG then 2 else 1].Encoding());
  }

  lemma SomeAttributesPanicExact(item: Item)
    ensures DecSomeAttributes(item) == Panic <==> Children(item).Ok? && AttributesEndThread(Children(item).value)
  {
    hide DecAttribute, AttributesEndThread, Children;
    if Children(item).Ok? {
      AttributesPanicExact(Children(item).value);
      if Children(item).value == [] {
        assert DecodeAll(Children(item).value, DecAttribute) == Ok([]);
      }
    }
  }

  /** The content info can be read, and the authenticated attributes end the thread, or they
      can be read, there is a MAC, and the unauthenticated attributes do. */
  predicate TailEndsThread(items: seq<Item>, pos: nat) {
    && pos < |items|
    && DecContentInfo(items[pos].Encoding()).Ok?
    && pos + 1 < |items|
    && (AttributeFieldEndsThread(items, pos + 1, AUTHENTICATED_TAG)
      || (DecAuthenticatedAt(items, pos + 1).Ok?
        && var mac := pos + 1 + if items[pos + 1].Tag() == AUTHENTICATED_TAG then 1 else 0;
          mac < |items| && AttributeFieldEndsThread(items, mac + 1, UNAUTHENTICATED_TAG)))
  }

  lemma TailPanicExact(items: seq<Item>, pos: nat)
    ensures DecAuthTail(items, pos) == Panic <==> TailEndsThread(items, pos)
  {
    hide DecContentInfo, DecSomeAttributes, Children, AttributesEndThread, Tlv;
    if pos + 1 < |items| {
      SomeAttributesPanicExact(items[pos + 1]);
      var mac := pos + 1 + if items[pos + 1].Tag() == AUTHENTICATED_TAG then 1 else 0;
      if mac + 1 < |items| {
        SomeAttributesPanicExact(items[mac + 1]);
      }
    }
  }

  predicate AuthenticatedDataEndsThread(raw: bytes) {
    && DecodeBoundedSequence(raw, 5, 9).Ok?
    && var items := DecodeBoundedSequence(raw, 5, 9).value;
      HeadEndsThread(items) || (DecAuthHead(items).Ok? && TailEndsThread(items, DecAuthHead(items).value.pos))
  }

  lemma AuthenticatedDataPanicExact(raw: bytes)
    ensures DecAuthenticatedData(raw) == Panic <==> AuthenticatedDataEndsThread(raw)
  {
    hide DecodeBoundedSequence, DecAuthHead, HeadEndsThread, DecAuthTail, TailEndsThread;
    if DecodeBoundedSequence(raw, 5, 9).Ok? {
      var items := DecodeBoundedSequence(raw, 5, 9).value;
      HeadPanicExact(items);
      if DecAuthHead(items).Ok? {
        TailPanicExact(items, DecAuthHead(items).value.pos);
      }
    }
  }
}
