/** CCMSKeyIdentifier and CCMSRecipientEncryptedKey (section 6.2.2 of RFC 2630). */
module CmsKeyIdentifier {
  import opened Outcomes
  import opened DerCodec
  import opened Asn1
  import opened TimeUtil
  import opened CmsIssuerAndSerialNumber

  // ------------------------------------------------------------ key identifier

  datatype KeyIdentifierValue = KeyIdentifierValue(keyIdentifier: bytes, date: Option<Time>)

  function EncKeyIdentifier(k: KeyIdentifierValue): (r: Enc)
    ensures r.Node? && r.id == SEQUENCE_ID
  {
    Node(SEQUENCE_ID, [EncOctets(k.keyIdentifier)]
      + match k.date case Some(date) => [EncGeneralizedTime(date)] case None => [])
  }

  /** DecodeArrayL: a third item is ignored. */
  function DecKeyIdentifierArray(items: seq<Item>): (r: Outcome<KeyIdentifierValue>)
    requires items != []
    ensures r != Panic
  {
    if |items| == 1 then Ok(KeyIdentifierValue(items[0].contents, None))
    else
      var date :- DecGeneralizedTime(items[1]);
      Ok(KeyIdentifierValue(items[0].contents, Some(date)))
  }

  /** DecodeL */
  function DecKeyIdentifier(raw: bytes): (r: Outcome<KeyIdentifierValue>)
    ensures r != Panic
  {
    var items :- DecodeBoundedSequence(raw, 1, 3);
    DecKeyIdentifierArray(items)
  }

  /** DecodeImplicitTagL */
  function DecImplicitKeyIdentifier(raw: bytes, tag: nat): (r: Outcome<KeyIdentifierValue>)
    ensures r != Panic
  {
    var item :- Head(raw);
    if item.Tag() != tag then Leave(KErrArgument)
    else
      var items :- Children(item);
      if |items| > 3 || |items| < 1 then Leave(KErrArgument) else DecKeyIdentifierArray(items)
  }

  /** Read back under its own tag and under any IMPLICIT one. */
  lemma KeyIdentifierRoundTrip(k: KeyIdentifierValue, t: Enc)
    requires t.Node? && t.kids == EncKeyIdentifier(k).kids && Fits(t)
    ensures DecImplicitKeyIdentifier(Der(t), ItemOf(t).Tag()) == Ok(k)
    ensures t.id == SEQUENCE_ID ==> DecKeyIdentifier(Der(t)) == Ok(k)
  {
    hide EncGeneralizedTime, DecGeneralizedTime, Tlv;
    DecodeNode(t);
    if k.date.Some? {
      GeneralizedTimeRoundTrip(k.date.value);
    }
  }

  class KeyIdentifier {
    var iKeyIdentifier: bytes
    var iDate: Option<Time>

    function Value(): KeyIdentifierValue
      reads this
    {
      KeyIdentifierValue(iKeyIdentifier, iDate)
    }

    constructor (keyIdentifier: bytes, date: Option<Time>)
      ensures Value() == KeyIdentifierValue(keyIdentifier, date)
    {
      iKeyIdentifier, iDate := keyIdentifier, date;
    }

    /** The identifier is assigned before the date is known to be good. */
    method DecodeArrayL(items: seq<Item>) returns (r: Outcome<()>)
      requires items != []
      modifies this
      ensures r == Status(DecKeyIdentifierArray(items))
      ensures r.Ok? ==> Value() == DecKeyIdentifierArray(items).value
      ensures !r.Ok? ==> Value() == old(Value()).(keyIdentifier := items[0].contents)
    {
      iKeyIdentifier := items[0].contents;
      if |items| > 1 {
        var date :- DecGeneralizedTime(items[1]);
        iDate := Some(date);
      } else {
        iDate := None;
      }
      r := Ok(());
    }

    method DecodeL(raw: bytes) returns (r: Outcome<()>)
      modifies this
      ensures r == Status(DecKeyIdentifier(raw))
      ensures r.Ok? ==> Value() == DecKeyIdentifier(raw).value
      ensures !r.Ok? ==> iDate == old(iDate)
    {
      var items :- DecodeBoundedSequence(raw, 1, 3);
      r := DecodeArrayL(items);
    }

    method DecodeImplicitTagL(raw: bytes, tag: nat) returns (r: Outcome<()>)
      modifies this
      ensures r == Status(DecImplicitKeyIdentifier(raw, tag))
      ensures r.Ok? ==> Value() == DecImplicitKeyIdentifier(raw, tag).value
      ensures !r.Ok? ==> iDate == old(iDate)
    {
      var decGen :- Head(raw);
      if decGen.Tag() != tag {
        return Leave(KErrArgument);
      }
      var items :- Children(decGen);
      if |items| > 3 || |items| < 1 {
        return Leave(KErrArgument);
      }
      r := DecodeArrayL(items);
    }
  }

  // ----------------------------------------------------------- encrypted key

  datatype KeyAgreeRecipientId = RecipientIssuer(issuer: IssuerSerialNumber) | RecipientKey(keyId: KeyIdentifierValue)

  datatype EncryptedKeyValue = EncryptedKeyValue(rid: KeyAgreeRecipientId, encryptedKey: bytes)

  const RKEY_ID_TAG: nat := 0

  /** Both alternatives are wrapped encodings, the second one re-tagged. */
  function EncRecipientId(rid: KeyAgreeRecipientId): (r: Outcome<Enc>)
  {
    match rid
    case RecipientIssuer(issuer) => Wrap(EncIssuer(issuer))
    case RecipientKey(keyId) =>
      var t :- Wrap(EncKeyIdentifier(keyId));
      Ok(ImplicitTag(t, RKEY_ID_TAG))
  }

  function DecRecipientId(item: Item): (r: Outcome<KeyAgreeRecipientId>)
    ensures r != Panic
  {
    if item.Tag() == RKEY_ID_TAG then
      var keyId :- DecImplicitKeyIdentifier(item.Encoding(), RKEY_ID_TAG);
      Ok(RecipientKey(keyId))
    else
      var issuer :- DecIssuer(item.Encoding());
      Ok(RecipientIssuer(issuer))
  }

  lemma RecipientIdRoundTrip(rid: KeyAgreeRecipientId)
    requires EncRecipientId(rid).Ok?
    ensures DecRecipientId(ItemOf(EncRecipientId(rid).value)) == Ok(rid)
  {
    hide Tlv, EncIssuer, DecIssuer, EncKeyIdentifier, DecImplicitKeyIdentifier, Wrap, Fits;
    match rid
    case RecipientIssuer(issuer) =>
      WrapExact(EncIssuer(issuer));
      IssuerRoundTrip(issuer);
      ItemEncoding(EncIssuer(issuer));
    case RecipientKey(keyId) =>
      var inner := EncKeyIdentifier(keyId);
      WrapExact(inner);
      var t := ImplicitTag(inner, RKEY_ID_TAG);
      KeyIdentifierRoundTrip(keyId, t);
      assert ItemOf(EncRecipientId(rid).value) == ItemOf(t);
      ItemEncoding(t);
  }

  function EncEncryptedKey(k: EncryptedKeyValue): (r: Outcome<Enc>)
    ensures r.Ok? ==> r.value.Node? && r.value.id == SEQUENCE_ID
  {
    var rid :- EncRecipientId(k.rid);
    Ok(Node(SEQUENCE_ID, [rid, EncOctets(k.encryptedKey)]))
  }

  function DecEncryptedKey(raw: bytes): (r: Outcome<EncryptedKeyValue>)
    ensures r != Panic
  {
    var items :- DecodeBoundedSequence(raw, 2, 2);
    var rid :- DecRecipientId(items[0]);
    Ok(EncryptedKeyValue(rid, items[1].contents))
  }

  lemma EncryptedKeyRoundTrip(k: EncryptedKeyValue)
    requires EncEncryptedKey(k).Ok? && Fits(EncEncryptedKey(k).value)
    ensures DecEncryptedKey(Der(EncEncryptedKey(k).value)) == Ok(k)
  {
    hide EncRecipientId, DecRecipientId, Tlv;
    DecodeNode(EncEncryptedKey(k).value);
    RecipientIdRoundTrip(k.rid);
  }

  /** The form in which lists of keys are written: finished encodings, wrapped. */
  function EncWrappedKey(k: EncryptedKeyValue): (r: Outcome<Enc>)
  {
    var t :- EncEncryptedKey(k);
    Wrap(t)
  }

  lemma WrappedKeyRoundTrip(k: EncryptedKeyValue)
    requires EncWrappedKey(k).Ok?
    ensures DecEncryptedKey(Der(EncWrappedKey(k).value)) == Ok(k)
  {
    hide EncEncryptedKey, DecEncryptedKey, Wrap;
    EncryptedKeyRoundTrip(k);
    WrapExact(EncEncryptedKey(k).value);
  }

  class RecipientEncryptedKey {
    var iIssuerAndSerialNumber: Option<IssuerSerialNumber>
    var iRKeyId: Option<KeyIdentifierValue>
    var iEncryptedKey: bytes

    /** Exactly one of the two identifier pointers is set. */
    ghost predicate Valid()
      reads this
    {
      iIssuerAndSerialNumber.Some? <==> iRKeyId.None?
    }

    function Value(): EncryptedKeyValue
      reads this
      requires Valid()
    {
      EncryptedKeyValue(
        if iIssuerAndSerialNumber.Some? then RecipientIssuer(iIssuerAndSerialNumber.value)
          else RecipientKey(iRKeyId.value),
        iEncryptedKey)
    }

    constructor FromIssuer(issuer: IssuerSerialNumber, encryptedKey: bytes)
      ensures Valid() && Value() == EncryptedKeyValue(RecipientIssuer(issuer), encryptedKey)
    {
      iIssuerAndSerialNumber, iRKeyId, iEncryptedKey := Some(issuer), None, encryptedKey;
    }

    constructor FromKeyId(keyId: KeyIdentifierValue, encryptedKey: bytes)
      ensures Valid() && Value() == EncryptedKeyValue(RecipientKey(keyId), encryptedKey)
    {
      iIssuerAndSerialNumber, iRKeyId, iEncryptedKey := None, Some(keyId), encryptedKey;
    }

    method DecodeL(raw: bytes) returns (r: Outcome<()>)
      requires Valid()
      modifies this
      ensures Valid()
      ensures r == Status(DecEncryptedKey(raw))
      ensures Value() == if r.Ok? then DecEncryptedKey(raw).value else old(Value())
    {
      hide DecIssuer, DecImplicitKeyIdentifier, Tlv;
      var itemsData :- DecodeBoundedSequence(raw, 2, 2);
      var gen := itemsData[0];
      if gen.Tag() == RKEY_ID_TAG {
        var keyId := new KeyIdentifier([], None);
        var decoded :- keyId.DecodeImplicitTagL(gen.Encoding(), RKEY_ID_TAG);
        iIssuerAndSerialNumber := None;
        iRKeyId := Some(keyId.Value());
      } else {
        var issuer := new IssuerAndSerialNumber([], []);
        var decoded :- issuer.DecodeL(gen.Encoding());
        iRKeyId := None;
        iIssuerAndSerialNumber := Some(issuer.Value());
      }
      iEncryptedKey := itemsData[1].contents;
      r := Ok(());
    }

    method EncoderLC() returns (r: Outcome<Enc>)
      requires Valid()
      ensures r == EncEncryptedKey(Value())
    {
      var rid: Enc;
      if iIssuerAndSerialNumber.Some? {
        rid :- Wrap(EncIssuer(iIssuerAndSerialNumber.value));
      } else {
        rid :- Wrap(EncKeyIdentifier(iRKeyId.value));
        rid := ImplicitTag(rid, RKEY_ID_TAG);
      }
      r := Ok(Node(SEQUENCE_ID, [rid, EncOctets(iEncryptedKey)]));
    }

    method SetIssuerAndSerialNumberL(issuer: IssuerSerialNumber)
      requires Valid()
      modifies this
      ensures Valid() && Value() == old(Value()).(rid := RecipientIssuer(issuer))
    {
      iRKeyId := None;
      iIssuerAndSerialNumber := Some(issuer);
    }

    method SetRKeyIdL(keyId: KeyIdentifierValue)
      requires Valid()
      modifies this
      ensures Valid() && Value() == old(Value()).(rid := RecipientKey(keyId))
    {
      iIssuerAndSerialNumber := None;
      iRKeyId := Some(keyId);
    }
  }
}
