/** CCMSOriginatorPublicKey and CCMSOriginatorIdentifierOrKey
    (section 6.2.2 of RFC 2630). */
module CmsOriginatorIdentifierOrKey {
  import opened Outcomes
  import opened DerCodec
  import opened Asn1
  import opened AlgorithmIdentifier
  import opened CmsIssuerAndSerialNumber
  import opened HeapCells

  // ---------------------------------------------------------------- public key

  datatype PublicKeyValue = PublicKeyValue(algorithm: AlgorithmId, key: bytes)

  function EncPublicKey(p: PublicKeyValue): (r: Outcome<Enc>)
    ensures r.Ok? ==> r.value.Node? && r.value.id == SEQUENCE_ID
  {
    var inner :- EncAlgorithm(p.algorithm);
    var algorithm :- Wrap(inner);
    Ok(Node(SEQUENCE_ID, [algorithm, EncBits(p.key)]))
  }

  /** The one place that allows for a bit string without octets. */
  function DecKeyBits(item: Item): (r: Outcome<bytes>)
    ensures r != Panic
  {
    if |item.contents| > 1 then DecBits(item) else Ok([])
  }

  /** Whatever the tag. */
  function DecPublicKey(raw: bytes): (r: Outcome<PublicKeyValue>)
    ensures r != Panic
  {
    var item :- Head(raw);
    var items :- Children(item);
    if |items| != 2 then Leave(KErrArgument)
    else
      var algorithm :- DecAlgorithm(items[0].Encoding());
      var key :- DecKeyBits(items[1]);
      Ok(PublicKeyValue(algorithm, key))
  }

  function NormPublicKey(p: PublicKeyValue): PublicKeyValue {
    p.(algorithm := NormAlgorithm(p.algorithm))
  }

  /** Every key is read back, the empty one included, under any constructed tag. */
  lemma PublicKeyRoundTrip(p: PublicKeyValue, t: Enc)
    requires EncPublicKey(p).Ok? && t.Node? && t.kids == EncPublicKey(p).value.kids && Fits(t)
    ensures DecPublicKey(Der(t)) == Ok(NormPublicKey(p))
  {
    hide EncAlgorithm, DecAlgorithm, NormAlgorithm, Wrap, Tlv;
    var inner := EncAlgorithm(p.algorithm).value;
    DecodeNode(t);
    WrapExact(inner);
    AlgorithmRoundTrip(p.algorithm);
    ItemEncoding(inner);
    BitsRoundTrip(p.key, BIT_STRING_ID);
    assert t.kids[1] == EncBits(p.key);
  }

  class OriginatorPublicKey {
    var iAlgorithm: AlgorithmId
    var iPublicKey: bytes

    function Value(): PublicKeyValue
      reads this
    {
      PublicKeyValue(iAlgorithm, iPublicKey)
    }

    constructor ()
      ensures Value() == PublicKeyValue(AlgorithmId(RSA, None, []), [])
    {
      iAlgorithm, iPublicKey := AlgorithmId(RSA, None, []), [];
    }

    /** The algorithm is assigned before the key is known to be good. */
    method DecodeL(raw: bytes) returns (r: Outcome<()>)
      modifies this
      ensures r == Status(DecPublicKey(raw))
      ensures r.Ok? ==> Value() == DecPublicKey(raw).value
      ensures !r.Ok? ==> iPublicKey == old(iPublicKey)
    {
      var decGen :- Head(raw);
      var itemsData :- Children(decGen);
      if |itemsData| != 2 {
        return Leave(KErrArgument);
      }
      var algorithm :- DecAlgorithm(itemsData[0].Encoding());
      iAlgorithm := algorithm;
      if |itemsData[1].contents| > 1 {
        var key :- DecBits(itemsData[1]);
        iPublicKey := key;
      } else {
        iPublicKey := [];
      }
      r := Ok(());
    }
  }

  // ------------------------------------------------------------------- choice

  datatype OriginatorValue =
    | OriginatorIssuer(issuer: IssuerSerialNumber)
    | OriginatorKeyId(keyId: bytes)
    | OriginatorKey(publicKey: PublicKeyValue)

  /** TType: the two context-specific tags, and a number for the universal alternative. */
  const ESUBJECT_KEY_IDENTIFIER: nat := 0
  const EORIGINATOR_KEY: nat := 1
  const EISSUER_AND_SERIAL_NUMBER: nat := 2

  function EncOriginator(o: OriginatorValue): (r: Outcome<Enc>)
  {
    match o
    case OriginatorIssuer(issuer) => Ok(EncIssuer(issuer))
    case OriginatorKeyId(keyId) => Ok(ImplicitTag(EncOctets(keyId), ESUBJECT_KEY_IDENTIFIER))
    case OriginatorKey(publicKey) =>
      var t :- EncPublicKey(publicKey);
      Ok(ImplicitTag(t, EORIGINATOR_KEY))
  }

  function DecOriginator(raw: bytes): (r: Outcome<OriginatorValue>)
    ensures r != Panic
  {
    var item :- Head(raw);
    if item.Tag() == SEQUENCE_TAG then
      if item.Class() != Universal then Leave(KErrArgument)
      else
        var issuer :- DecIssuer(raw);
        Ok(OriginatorIssuer(issuer))
    else if item.Tag() == ESUBJECT_KEY_IDENTIFIER then
      if item.Class() != ContextSpecific then Leave(KErrArgument)
      else
        Ok(OriginatorKeyId(DecFirst(raw).value))
    else if item.Tag() == EORIGINATOR_KEY then
      if item.Class() != ContextSpecific then Leave(KErrArgument)
      else
        var publicKey :- DecPublicKey(raw);
        Ok(OriginatorKey(publicKey))
    else Leave(KErrArgument)
  }

  function NormOriginator(o: OriginatorValue): OriginatorValue {
    match o
    case OriginatorKey(publicKey) => OriginatorKey(NormPublicKey(publicKey))
    case _ => o
  }

  /** All three alternatives are read back, told apart by tag and class. */
  lemma OriginatorRoundTrip(o: OriginatorValue)
    requires EncOriginator(o).Ok? && Fits(EncOriginator(o).value)
    ensures DecOriginator(Der(EncOriginator(o).value)) == Ok(NormOriginator(o))
  {
    hide EncPublicKey, DecPublicKey, NormPublicKey, DecIssuer, Tlv;
    ReadWholeDer(EncOriginator(o).value);
    match o
    case OriginatorIssuer(issuer) => IssuerRoundTrip(issuer);
    case OriginatorKeyId(_) =>
    case OriginatorKey(publicKey) => PublicKeyRoundTrip(publicKey, EncOriginator(o).value);
  }

  // ------------------------------------------------------------------ objects

  class OriginatorIdentifierOrKey {
    var iType: nat
    var iIssuerAndSerialNumber: HeapCell?<IssuerSerialNumber>
    var iSubjectKeyIdentifier: HeapCell?<bytes>
    var iOriginatorKey: HeapCell?<PublicKeyValue>

    /** The type names one of the three alternatives, no other one is stored, and what is
        stored has not been deleted. */
    ghost predicate Consistent()
      reads this, iIssuerAndSerialNumber, iSubjectKeyIdentifier, iOriginatorKey
    {
      && iType <= EISSUER_AND_SERIAL_NUMBER
      && (iIssuerAndSerialNumber != null ==> iType == EISSUER_AND_SERIAL_NUMBER && iIssuerAndSerialNumber.live)
      && (iSubjectKeyIdentifier != null ==> iType == ESUBJECT_KEY_IDENTIFIER && iSubjectKeyIdentifier.live)
      && (iOriginatorKey != null ==> iType == EORIGINATOR_KEY && iOriginatorKey.live)
    }

    /** Exactly one alternative is stored and the type agrees with it. */
    ghost predicate Valid()
      reads this, iIssuerAndSerialNumber, iSubjectKeyIdentifier, iOriginatorKey
    {
      && Consistent()
      && (iType == EISSUER_AND_SERIAL_NUMBER ==> iIssuerAndSerialNumber != null)
      && (iType == ESUBJECT_KEY_IDENTIFIER ==> iSubjectKeyIdentifier != null)
      && (iType == EORIGINATOR_KEY ==> iOriginatorKey != null)
    }

    ghost function Value(): OriginatorValue
      reads this, iIssuerAndSerialNumber, iSubjectKeyIdentifier, iOriginatorKey
      requires Valid()
    {
      if iType == EISSUER_AND_SERIAL_NUMBER then OriginatorIssuer(iIssuerAndSerialNumber.content)
      else if iType == ESUBJECT_KEY_IDENTIFIER then OriginatorKeyId(iSubjectKeyIdentifier.content)
      else OriginatorKey(iOriginatorKey.content)
    }

    /** A zeroed object: no alternative is stored yet. */
    constructor ()
      ensures Consistent() && iIssuerAndSerialNumber == null && iSubjectKeyIdentifier == null && iOriginatorKey == null
    {
      iType := ESUBJECT_KEY_IDENTIFIER;
      iIssuerAndSerialNumber, iSubjectKeyIdentifier, iOriginatorKey := null, null, null;
    }

    /** The KErrCorrupt branch is never taken. */
    method DeleteOldValueAndChangeTypeL(newType: nat) returns (r: Outcome<()>)
      requires Consistent() && newType <= EISSUER_AND_SERIAL_NUMBER
      modifies this, iIssuerAndSerialNumber, iSubjectKeyIdentifier, iOriginatorKey
      ensures r == Ok(()) && iType == newType
      ensures iIssuerAndSerialNumber == null && iSubjectKeyIdentifier == null && iOriginatorKey == null
    {
      if iType == EISSUER_AND_SERIAL_NUMBER {
        if iIssuerAndSerialNumber != null {
          iIssuerAndSerialNumber.Delete();
        }
        iIssuerAndSerialNumber := null;
      } else if iType == ESUBJECT_KEY_IDENTIFIER {
        if iSubjectKeyIdentifier != null {
          iSubjectKeyIdentifier.Delete();
        }
        iSubjectKeyIdentifier := null;
      } else if iType == EORIGINATOR_KEY {
        if iOriginatorKey != null {
          iOriginatorKey.Delete();
        }
        iOriginatorKey := null;
      } else {
        return Leave(KErrCorrupt);
      }
      iType := newType;
      r := Ok(());
    }

    /** The argument may be the stored value itself: it is copied before that is deleted. */
    method SetIssuerAndSerialNumberL(issuer: HeapCell<IssuerSerialNumber>) returns (r: Outcome<()>)
      requires Consistent() && issuer.live
      modifies this, iIssuerAndSerialNumber, iSubjectKeyIdentifier, iOriginatorKey
      ensures r == Ok(()) && Valid() && Value() == OriginatorIssuer(issuer.content)
      ensures fresh(iIssuerAndSerialNumber)
    {
      var copied := issuer.Read();
      var copy := new HeapCell(copied);
      r := DeleteOldValueAndChangeTypeL(EISSUER_AND_SERIAL_NUMBER);
      iIssuerAndSerialNumber := copy;
    }

    method SetSubjectKeyIdentifierL(keyId: HeapCell<bytes>) returns (r: Outcome<()>)
      requires Consistent() && keyId.live
      modifies this, iIssuerAndSerialNumber, iSubjectKeyIdentifier, iOriginatorKey
      ensures r == Ok(()) && Valid() && Value() == OriginatorKeyId(keyId.content)
      ensures fresh(iSubjectKeyIdentifier)
    {
      var copied := keyId.Read();
      var copy := new HeapCell(copied);
      r := DeleteOldValueAndChangeTypeL(ESUBJECT_KEY_IDENTIFIER);
      iSubjectKeyIdentifier := copy;
    }

    method SetOriginatorKeyL(key: HeapCell<PublicKeyValue>) returns (r: Outcome<()>)
      requires Consistent() && key.live
      modifies this, iIssuerAndSerialNumber, iSubjectKeyIdentifier, iOriginatorKey
      ensures r == Ok(()) && Valid() && Value() == OriginatorKey(key.content)
      ensures fresh(iOriginatorKey)
    {
      var copied := key.Read();
      var copy := new HeapCell(copied);
      r := DeleteOldValueAndChangeTypeL(EORIGINATOR_KEY);
      iOriginatorKey := copy;
    }

    /** The getters leave with KErrNotFound exactly when another alternative is stored. */
    method IssuerAndSerialNumberL() returns (r: Outcome<HeapCell<IssuerSerialNumber>>)
      requires Valid()
      ensures Value().OriginatorIssuer? ==> r.Ok? && r.value.live && r.value.content == Value().issuer
      ensures !Value().OriginatorIssuer? ==> r == Leave(KErrNotFound)
    {
      if iIssuerAndSerialNumber == null {
        return Leave(KErrNotFound);
      }
      r := Ok(iIssuerAndSerialNumber);
    }

    method SubjectKeyIdentifierL() returns (r: Outcome<HeapCell<bytes>>)
      requires Valid()
      ensures Value().OriginatorKeyId? ==> r.Ok? && r.value.live && r.value.content == Value().keyId
      ensures !Value().OriginatorKeyId? ==> r == Leave(KErrNotFound)
    {
      if iSubjectKeyIdentifier == null {
        return Leave(KErrNotFound);
      }
      r := Ok(iSubjectKeyIdentifier);
    }

    method OriginatorKeyL() returns (r: Outcome<HeapCell<PublicKeyValue>>)
      requires Valid()
      ensures Value().OriginatorKey? ==> r.Ok? && r.value.live && r.value.content == Value().publicKey
      ensures !Value().OriginatorKey? ==> r == Leave(KErrNotFound)
    {
      if iOriginatorKey == null {
        return Leave(KErrNotFound);
      }
      r := Ok(iOriginatorKey);
    }

    /** A failure leaves the stored alternative in place. */
    method DecodeL(raw: bytes) returns (r: Outcome<()>)
      requires Valid()
      modifies this, iIssuerAndSerialNumber, iSubjectKeyIdentifier, iOriginatorKey
      ensures Valid()
      ensures r == Status(DecOriginator(raw))
      ensures Value() == if r.Ok? then DecOriginator(raw).value else old(Value())
    {
      hide DecIssuer, DecPublicKey;
      var decGen :- Head(raw);
      if decGen.Tag() == SEQUENCE_TAG {
        if decGen.Class() != Universal {
          return Leave(KErrArgument);
        }
        var issuer :- DecIssuer(raw);
        var copy := new HeapCell(issuer);
        r := DeleteOldValueAndChangeTypeL(EISSUER_AND_SERIAL_NUMBER);
        iIssuerAndSerialNumber := copy;
      } else if decGen.Tag() == ESUBJECT_KEY_IDENTIFIER {
        if decGen.Class() != ContextSpecific {
          return Leave(KErrArgument);
        }
        // Does not leave: the head has been read.
        var keyId := DecFirst(raw).value;
        var copy := new HeapCell(keyId);
        r := DeleteOldValueAndChangeTypeL(ESUBJECT_KEY_IDENTIFIER);
        iSubjectKeyIdentifier := copy;
      } else if decGen.Tag() == EORIGINATOR_KEY {
        if decGen.Class() != ContextSpecific {
          return Leave(KErrArgument);
        }
        var publicKey :- DecPublicKey(raw);
        var copy := new HeapCell(publicKey);
        r := DeleteOldValueAndChangeTypeL(EORIGINATOR_KEY);
        iOriginatorKey := copy;
      } else {
        return Leave(KErrArgument);
      }
    }

    /** The KErrCorrupt branch is never taken. */
    method EncoderLC() returns (r: Outcome<Enc>)
      requires Valid()
      ensures r == EncOriginator(Value())
    {
      if iType == EISSUER_AND_SERIAL_NUMBER {
        r := Ok(EncIssuer(iIssuerAndSerialNumber.content));
      } else if iType == ESUBJECT_KEY_IDENTIFIER {
        r := Ok(ImplicitTag(EncOctets(iSubjectKeyIdentifier.content), ESUBJECT_KEY_IDENTIFIER));
      } else if iType == EORIGINATOR_KEY {
        var originatorKey :- EncPublicKey(iOriginatorKey.content);
        r := Ok(ImplicitTag(originatorKey, EORIGINATOR_KEY));
      } else {
        r := Leave(KErrCorrupt);
      }
    }
  }
}
