/** CCMSRecipientInfo and its two simpler kinds, CCMSKeyTransRecipientInfo and
    CCMSKEKRecipientInfo (sections 6.2.1 and 6.2.3 of RFC 2630). */
module CmsRecipientInfo {
  import opened Outcomes
  import opened DerCodec
  import opened Asn1
  import opened AlgorithmIdentifier
  import opened CmsIssuerAndSerialNumber
  import opened CmsKeyIdentifier
  import opened HeapCells

  /** AddKeyEncryptionAlgorithmL: a finished encoding, wrapped. */
  function EncKeyEncryptionAlgorithm(a: AlgorithmId): (r: Outcome<Enc>)
  {
    var t :- EncAlgorithm(a);
    Wrap(t)
  }

  lemma KeyEncryptionAlgorithmRoundTrip(a: AlgorithmId)
    requires EncKeyEncryptionAlgorithm(a).Ok?
    ensures DecAlgorithm(Der(EncKeyEncryptionAlgorithm(a).value)) == Ok(NormAlgorithm(a))
  {
    hide EncAlgorithm, DecAlgorithm, NormAlgorithm, Wrap, Tlv;
    WrapExact(EncAlgorithm(a).value);
    AlgorithmRoundTrip(a);
  }

  // ------------------------------------------------------------- key transport

  datatype KeyTransValue = KeyTransValue(
    version: TInt,
    issuerAndSerial: Option<IssuerSerialNumber>,
    subjectKeyIdentifier: Option<bytes>,
    algorithm: AlgorithmId,
    encryptedKey: bytes)

  const ISSUER_VERSION: TInt := 0
  const KEY_IDENTIFIER_VERSION: TInt := 2
  const SUBJECT_KEY_IDENTIFIER_TAG: nat := 0

  /** Exactly one identifier is stored, and the version says which one. */
  predicate TransChoiceHolds(k: KeyTransValue) {
    || (k.version == ISSUER_VERSION && k.issuerAndSerial.Some? && k.subjectKeyIdentifier.None?)
    || (k.version == KEY_IDENTIFIER_VERSION && k.issuerAndSerial.None? && k.subjectKeyIdentifier.Some?)
  }

  function EncTransId(k: KeyTransValue): (r: Outcome<Enc>)
    ensures k.issuerAndSerial.Some? || k.subjectKeyIdentifier.Some? ==> r != Panic
  {
    match (k.issuerAndSerial, k.subjectKeyIdentifier)
    case (Some(issuer), _) => Wrap(EncIssuer(issuer))
    case (None, Some(key)) => Ok(ExplicitTag(EncOctets(key), SUBJECT_KEY_IDENTIFIER_TAG))
    case (None, None) => Panic
  }

  function EncKeyTrans(k: KeyTransValue): (r: Outcome<Enc>)
    ensures r.Ok? ==> r.value.Node? && r.value.id == SEQUENCE_ID
  {
    var rid :- EncTransId(k);
    var algorithm :- EncKeyEncryptionAlgorithm(k.algorithm);
    Ok(Node(SEQUENCE_ID, [EncInt(k.version), rid, algorithm, EncOctets(k.encryptedKey)]))
  }

  /** Section 6.2.1 of RFC 2630, except that the key identifier has an EXPLICIT tag. */
  lemma KeyTransLayout(k: KeyTransValue)
    requires EncKeyTrans(k).Ok?
    ensures Ids(EncKeyTrans(k).value.kids)
      == [0x02] + (if k.issuerAndSerial.Some? then [0x30] else [0xA0]) + [0x30, 0x04]
    ensures EncKeyTrans(k).value.kids[0] == EncInt(k.version)
      && EncKeyTrans(k).value.kids[3] == EncOctets(k.encryptedKey)
  {
    hide EncAlgorithm, EncIssuer, Fits;
    WrapExact(EncAlgorithm(k.algorithm).value);
    if k.issuerAndSerial.Some? {
      WrapExact(EncIssuer(k.issuerAndSerial.value));
    }
  }

  datatype TransId = TransIssuer(issuer: IssuerSerialNumber) | TransKey(key: bytes)

  /** The version decides which alternative is expected. */
  function DecTransId(item: Item, version: TInt): (r: Outcome<TransId>)
    ensures r != Panic
  {
    if version == KEY_IDENTIFIER_VERSION then
      if item.Tag() != SUBJECT_KEY_IDENTIFIER_TAG then Leave(KErrArgument)
      else
        var key :- DecFirst(item.contents);
        Ok(TransKey(key))
    else if version == ISSUER_VERSION then
      var issuer :- DecIssuer(item.Encoding());
      Ok(TransIssuer(issuer))
    else Leave(KErrArgument)
  }

  function DecKeyTrans(raw: bytes): (r: Outcome<KeyTransValue>)
    ensures r.Ok? ==> TransChoiceHolds(r.value)
    ensures r != Panic
  {
    var items :- DecodeBoundedSequence(raw, 4, 4);
    var version :- DecInt(items[0]);
    var rid :- DecTransId(items[1], version);
    var algorithm :- DecAlgorithm(items[2].Encoding());
    Ok(KeyTransValue(version,
      if rid.TransIssuer? then Some(rid.issuer) else None,
      if rid.TransKey? then Some(rid.key) else None,
      algorithm, items[3].contents))
  }

  function NormKeyTrans(k: KeyTransValue): KeyTransValue {
    k.(algorithm := NormAlgorithm(k.algorithm))
  }

  /** What the version and the written identifier decode to. */
  lemma TransIdRoundTrip(k: KeyTransValue, item: Item)
    requires EncTransId(k).Ok? && Fits(EncTransId(k).value) && item == ItemOf(EncTransId(k).value)
    ensures TransChoiceHolds(k) ==>
      DecTransId(item, k.version)
      == Ok(if k.issuerAndSerial.Some? then TransIssuer(k.issuerAndSerial.value)
        else TransKey(k.subjectKeyIdentifier.value))
  {
    hide EncIssuer, DecIssuer, Tlv;
    if k.issuerAndSerial.Some? {
      var t := EncIssuer(k.issuerAndSerial.value);
      WrapExact(t);
      IssuerRoundTrip(k.issuerAndSerial.value);
      ItemEncoding(t);
    } else {
      ReadWholeDer(EncOctets(k.subjectKeyIdentifier.value));
    }
  }

  /** Read back as stored exactly when the version agrees with the identifier. */
  lemma KeyTransRoundTrip(k: KeyTransValue)
    requires EncKeyTrans(k).Ok? && Fits(EncKeyTrans(k).value)
    ensures DecKeyTrans(Der(EncKeyTrans(k).value)) == Ok(NormKeyTrans(k)) <==> TransChoiceHolds(k)
  {
    hide EncTransId, DecTransId, EncKeyEncryptionAlgorithm, DecAlgorithm, NormAlgorithm, EncInt, DecInt, Tlv;
    var t := EncKeyTrans(k).value;
    var items := ItemsOf(t.kids);
    DecodeNode(t);
    assert t.kids[0] == EncInt(k.version) && Fits(t.kids[1]);
    IntRoundTrip(k.version);
    TransIdRoundTrip(k, items[1]);
    KeyEncryptionAlgorithmRoundTrip(k.algorithm);
  }

  /** The identifier is what the one cell that there is holds. */
  ghost predicate Stored(rid: TransId, issuer: HeapCell?<IssuerSerialNumber>, key: HeapCell?<bytes>)
    reads issuer, key
  {
    match rid
    case TransIssuer(v) => issuer != null && issuer.live && issuer.content == v && key == null
    case TransKey(v) => key != null && key.live && key.content == v && issuer == null
  }

  class KeyTransRecipientInfo {
    var iVersion: TInt
    var iIssuerAndSerialNumber: HeapCell?<IssuerSerialNumber>
    var iSubjectKeyIdentifier: HeapCell?<bytes>
    var iKeyEncryptionAlgorithm: AlgorithmId
    var iEncryptedKey: bytes

    /** What is stored has not been deleted, and the two identifiers exclude each other. */
    ghost predicate Consistent()
      reads this, iIssuerAndSerialNumber, iSubjectKeyIdentifier
    {
      && (iIssuerAndSerialNumber != null ==> iIssuerAndSerialNumber.live && iSubjectKeyIdentifier == null)
      && (iSubjectKeyIdentifier != null ==> iSubjectKeyIdentifier.live)
    }

    ghost predicate Valid()
      reads this, iIssuerAndSerialNumber, iSubjectKeyIdentifier
    {
      Consistent() && TransChoiceHolds(Value())
    }

    ghost function Value(): KeyTransValue
      reads this, iIssuerAndSerialNumber, iSubjectKeyIdentifier
    {
      KeyTransValue(iVersion,
        if iIssuerAndSerialNumber != null then Some(iIssuerAndSerialNumber.content) else None,
        if iSubjectKeyIdentifier != null then Some(iSubjectKeyIdentifier.content) else None,
        iKeyEncryptionAlgorithm, iEncryptedKey)
    }

    /** The C++ constructor and BaseConstructL. */
    constructor (version: TInt, algorithm: AlgorithmId)
      ensures Consistent() && Value() == KeyTransValue(version, None, None, algorithm, [])
    {
      iVersion, iKeyEncryptionAlgorithm, iEncryptedKey := version, algorithm, [];
      iIssuerAndSerialNumber, iSubjectKeyIdentifier := null, null;
    }

    /** The argument may be the stored issuer itself. */
    method SetIssuerAndSerialNumberL(issuer: HeapCell<IssuerSerialNumber>)
      requires Consistent() && issuer.live
      modifies this, iIssuerAndSerialNumber, iSubjectKeyIdentifier
      ensures Valid() && fresh(iIssuerAndSerialNumber)
      ensures Value() == old(Value()).(version := ISSUER_VERSION, issuerAndSerial := Some(issuer.content),
        subjectKeyIdentifier := None)
    {
      var copied := issuer.Read();
      var copy := new HeapCell(copied);
      if iSubjectKeyIdentifier != null {
        iSubjectKeyIdentifier.Delete();
      }
      iSubjectKeyIdentifier := null;
      if iIssuerAndSerialNumber != null {
        iIssuerAndSerialNumber.Delete();
      }
      iIssuerAndSerialNumber := copy;
      iVersion := ISSUER_VERSION;
    }

    method SetSubjectKeyIdentifierL(key: HeapCell<bytes>)
      requires Consistent() && key.live
      modifies this, iIssuerAndSerialNumber, iSubjectKeyIdentifier
      ensures Valid() && fresh(iSubjectKeyIdentifier)
      ensures Value()
        == old(Value()).(version := KEY_IDENTIFIER_VERSION, issuerAndSerial := None,
          subjectKeyIdentifier := Some(key.content))
    {
      var copied := key.Read();
      var copy := new HeapCell(copied);
      if iIssuerAndSerialNumber != null {
        iIssuerAndSerialNumber.Delete();
      }
      iIssuerAndSerialNumber := null;
      if iSubjectKeyIdentifier != null {
        iSubjectKeyIdentifier.Delete();
      }
      iSubjectKeyIdentifier := copy;
      iVersion := KEY_IDENTIFIER_VERSION;
    }

    /** A failure leaves every field as it was. */
    method DecodeL(raw: bytes) returns (r: Outcome<()>)
      requires Valid()
      modifies this, iIssuerAndSerialNumber, iSubjectKeyIdentifier
      ensures Valid()
      ensures r == Status(DecKeyTrans(raw))
      ensures Value() == if r.Ok? then DecKeyTrans(raw).value else old(Value())
    {
      hide DecTransId, DecAlgorithm, DecInt, DecodeBoundedSequence, Tlv;
      var itemsData :- DecodeBoundedSequence(raw, 4, 4);
      var version :- DecInt(itemsData[0]);
      var status, issuer, keyIdentifier := DecodeIdentifierL(itemsData[1], version);
      if status.IsFailure() {
        return status;
      }
      var algId :- DecAlgorithm(itemsData[2].Encoding());
      iVersion := version;
      if iSubjectKeyIdentifier != null {
        iSubjectKeyIdentifier.Delete();
      }
      iSubjectKeyIdentifier := keyIdentifier;
      if iIssuerAndSerialNumber != null {
        iIssuerAndSerialNumber.Delete();
      }
      iIssuerAndSerialNumber := issuer;
      iKeyEncryptionAlgorithm := algId;
      iEncryptedKey := itemsData[3].contents;
      r := Ok(());
    }

    /** The alternative that the version asks for, in a new cell. */
    static method DecodeIdentifierL(ridDec: Item, version: TInt)
      returns (r: Outcome<()>, issuer: HeapCell?<IssuerSerialNumber>, keyIdentifier: HeapCell?<bytes>)
      ensures r == Status(DecTransId(ridDec, version))
      ensures r.Ok? ==> Stored(DecTransId(ridDec, version).value, issuer, keyIdentifier)
      ensures issuer != null ==> fresh(issuer)
      ensures keyIdentifier != null ==> fresh(keyIdentifier)
      ensures r.Ok? ==> (issuer != null <==> version == ISSUER_VERSION)
      ensures r.Ok? ==> (keyIdentifier != null <==> version == KEY_IDENTIFIER_VERSION)
    {
      hide DecIssuer, DecFirst, Tlv;
      issuer, keyIdentifier := null, null;
      if version == KEY_IDENTIFIER_VERSION {
        if ridDec.Tag() != SUBJECT_KEY_IDENTIFIER_TAG {
          return Leave(KErrArgument), null, null;
        }
        var key := DecFirst(ridDec.contents);
        if key.IsFailure() {
          return key.PropagateFailure(), null, null;
        }
        keyIdentifier := new HeapCell(key.value);
      } else if version == ISSUER_VERSION {
        var decoded := DecIssuer(ridDec.Encoding());
        if decoded.IsFailure() {
          return decoded.PropagateFailure(), null, null;
        }
        issuer := new HeapCell(decoded.value);
      } else {
        return Leave(KErrArgument), null, null;
      }
      r := Ok(());
    }

    method EncoderLC() returns (r: Outcome<Enc>)
      requires Valid()
      ensures r == EncKeyTrans(Value())
    {
      hide EncKeyEncryptionAlgorithm, EncIssuer, Wrap;
      var rid: Enc;
      if iIssuerAndSerialNumber != null {
        rid :- Wrap(EncIssuer(iIssuerAndSerialNumber.content));
      } else {
        rid := ExplicitTag(EncOctets(iSubjectKeyIdentifier.content), SUBJECT_KEY_IDENTIFIER_TAG);
      }
      var algorithm :- EncKeyEncryptionAlgorithm(iKeyEncryptionAlgorithm);
      r := Ok(Node(SEQUENCE_ID, [EncInt(iVersion), rid, algorithm, EncOctets(iEncryptedKey)]));
    }
  }

  // ------------------------------------------------------- key-encryption key

  datatype KekValue = KekValue(version: TInt, kekid: KeyIdentifierValue, algorithm: AlgorithmId, encryptedKey: bytes)

  const KEK_VERSION: TInt := 4
  const KEK_TAG: nat := 2

  function EncKek(k: KekValue): (r: Outcome<Enc>)
    ensures r.Ok? ==> r.value.Node? && r.value.id == SEQUENCE_ID
  {
    var kekid :- Wrap(EncKeyIdentifier(k.kekid));
    var algorithm :- EncKeyEncryptionAlgorithm(k.algorithm);
    Ok(Node(SEQUENCE_ID, [EncInt(k.version), kekid, algorithm, EncOctets(k.encryptedKey)]))
  }

  function DecKekItems(items: seq<Item>): (r: Outcome<KekValue>)
    ensures r != Panic
  {
    if |items| != 4 then Leave(KErrArgument)
    else
      var version :- DecInt(items[0]);
      var kekid :- DecKeyIdentifier(items[1].Encoding());
      var algorithm :- DecAlgorithm(items[2].Encoding());
      Ok(KekValue(version, kekid, algorithm, items[3].contents))
  }

  /** Under a SEQUENCE or under the IMPLICIT tag of the alternative. */
  function DecKek(raw: bytes): (r: Outcome<KekValue>)
    ensures r != Panic
  {
    var item :- Head(raw);
    if item.Tag() != SEQUENCE_TAG && item.Tag() != KEK_TAG then Leave(KErrArgument)
    else
      var items :- Children(item);
      DecKekItems(items)
  }

  function NormKek(k: KekValue): KekValue {
    k.(algorithm := NormAlgorithm(k.algorithm))
  }

  lemma KekRoundTrip(k: KekValue, t: Enc)
    requires EncKek(k).Ok? && t.Node? && t.kids == EncKek(k).value.kids && Fits(t)
    requires ItemOf(t).Tag() == SEQUENCE_TAG || ItemOf(t).Tag() == KEK_TAG
    ensures DecKek(Der(t)) == Ok(NormKek(k))
  {
    hide EncKeyIdentifier, DecKeyIdentifier, EncKeyEncryptionAlgorithm, DecAlgorithm, NormAlgorithm, EncInt, DecInt,
      Tlv, Wrap;
    var kekid := EncKeyIdentifier(k.kekid);
    DecodeNode(t);
    assert t.kids[0] == EncInt(k.version);
    IntRoundTrip(k.version);
    WrapExact(kekid);
    KeyIdentifierRoundTrip(k.kekid, kekid);
    ItemEncoding(kekid);
    KeyEncryptionAlgorithmRoundTrip(k.algorithm);
  }

  class KekRecipientInfo {
    var iVersion: TInt
    var iKekid: KeyIdentifierValue
    var iKeyEncryptionAlgorithm: AlgorithmId
    var iEncryptedKey: bytes

    function Value(): KekValue
      reads this
    {
      KekValue(iVersion, iKekid, iKeyEncryptionAlgorithm, iEncryptedKey)
    }

    constructor (kekid: KeyIdentifierValue, algorithm: AlgorithmId, encryptedKey: bytes)
      ensures Value() == KekValue(KEK_VERSION, kekid, algorithm, encryptedKey)
    {
      iVersion, iKekid, iKeyEncryptionAlgorithm, iEncryptedKey := KEK_VERSION, kekid, algorithm, encryptedKey;
    }

    /** Every member is decoded before any is replaced. */
    method DecodeL(raw: bytes) returns (r: Outcome<()>)
      modifies this
      ensures r == Status(DecKek(raw))
      ensures Value() == if r.Ok? then DecKek(raw).value else old(Value())
    {
      hide DecKeyIdentifier, DecAlgorithm, DecInt, Tlv;
      var decGen :- Head(raw);
      if decGen.Tag() != SEQUENCE_TAG && decGen.Tag() != KEK_TAG {
        return Leave(KErrArgument);
      }
      var itemsData :- Children(decGen);
      if |itemsData| != 4 {
        return Leave(KErrArgument);
      }
      var version :- DecInt(itemsData[0]);
      var keyId := new KeyIdentifier([], None);
      var decoded :- keyId.DecodeL(itemsData[1].Encoding());
      var algId :- DecAlgorithm(itemsData[2].Encoding());
      iVersion := version;
      iKekid := keyId.Value();
      iKeyEncryptionAlgorithm := algId;
      iEncryptedKey := itemsData[3].contents;
      r := Ok(());
    }
  }
}
