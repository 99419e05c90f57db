/** CCMSKeyAgreeRecipientInfo (section 6.2.2 of RFC 2630). */
module CmsKeyAgreeRecipientInfo {
  import opened Outcomes
  import opened DerCodec
  import opened Asn1
  import opened AlgorithmIdentifier
  import opened CmsIssuerAndSerialNumber
  import opened CmsKeyIdentifier
  import opened CmsOriginatorIdentifierOrKey
  import opened CmsRecipientInfo
  import opened HeapCells

  datatype KeyAgreeValue = KeyAgreeValue(
    version: TInt,
    originator: OriginatorValue,
    ukm: Option<bytes>,
    algorithm: AlgorithmId,
    keys: seq<EncryptedKeyValue>)

  const KEY_AGREE_VERSION: TInt := 3
  const KEY_AGREE_TAG: nat := 1
  const ORIGINATOR_TAG: nat := 0
  const UKM_TAG: nat := 1

  // ----------------------------------------------------------------- encoding

  function EncUkm(ukm: Option<bytes>): (r: seq<Enc>)
    ensures |r| == if ukm.Some? then 1 else 0
  {
    match ukm
    case Some(octets) => [ExplicitTag(EncOctets(octets), UKM_TAG)]
    case None => []
  }

  function EncKeys(keys: seq<EncryptedKeyValue>): (r: Outcome<Enc>)
    ensures r.Ok? ==> r.value.Node? && r.value.id == SEQUENCE_ID
  {
    var kids :- EncodeAll(keys, EncWrappedKey);
    Ok(Node(SEQUENCE_ID, kids))
  }

  function EncKeyAgree(k: KeyAgreeValue): (r: Outcome<Enc>)
    ensures r.Ok? ==> r.value.Node? && r.value.id == SEQUENCE_ID
  {
    var originator :- EncOriginator(k.originator);
    var algorithm :- EncKeyEncryptionAlgorithm(k.algorithm);
    var keys :- EncKeys(k.keys);
    Ok(Node(SEQUENCE_ID, [EncInt(k.version), ExplicitTag(originator, ORIGINATOR_TAG)] + EncUkm(k.ukm)
      + [algorithm, keys]))
  }

  /** Section 6.2.2 of RFC 2630: version, EXPLICIT [0] originator, EXPLICIT [1] keying
      material, algorithm, keys. */
  lemma KeyAgreeLayout(k: KeyAgreeValue)
    requires EncKeyAgree(k).Ok?
    ensures var t := EncKeyAgree(k).value;
      t.id == 0x30 && Ids(t.kids) == [0x02, 0xA0] + (if k.ukm.Some? then [0xA1] else []) + [0x30, 0x30]
    ensures var inner := Contents(EncKeyAgree(k).value.kids[1]);
      inner[0] == match k.originator
        case OriginatorIssuer(_) => 0x30
        case OriginatorKeyId(_) => 0x80
        case OriginatorKey(_) => 0xA1
  {
    hide EncKeys, EncKeyEncryptionAlgorithm, EncIssuer, EncPublicKey, LengthOctets;
    KeyEncryptionAlgorithmId(k.algorithm);
    assert Ids(EncUkm(k.ukm)) == if k.ukm.Some? then [0xA1] else [];
  }

  lemma KeyEncryptionAlgorithmId(a: AlgorithmId)
    requires EncKeyEncryptionAlgorithm(a).Ok?
    ensures EncKeyEncryptionAlgorithm(a).value.id == 0x30
    ensures ItemOf(EncKeyEncryptionAlgorithm(a).value).Tag() == SEQUENCE_TAG
  {
    hide EncAlgorithm;
    WrapExact(EncAlgorithm(a).value);
  }

  // ----------------------------------------------------------------- decoding

  function DecTaggedOriginator(item: Item): (r: Outcome<OriginatorValue>)
    ensures r != Panic
  {
    if item.Tag() != ORIGINATOR_TAG then Leave(KErrArgument) else DecOriginator(item.contents)
  }

  /** A keying material field means that there have to be five items. */
  function DecUkm(items: seq<Item>): (r: Outcome<Option<bytes>>)
    requires 4 <= |items|
    ensures r.Ok? && r.value.Some? ==> 5 <= |items|
    ensures r != Panic
  {
    if items[2].Tag() != UKM_TAG then Ok(None)
    else
      var octets :- DecFirst(items[2].contents);
      if |items| < 5 then Leave(KErrArgument) else Ok(Some(octets))
  }

  function DecKeys(raw: bytes): (r: Outcome<seq<EncryptedKeyValue>>)
    ensures r != Panic
  {
    var items :- DecodeSequence(raw);
    DecodeAllSafe(items, DecEncryptedKey);
    DecodeAll(items, DecEncryptedKey)
  }

  function DecKeyAgreeItems(items: seq<Item>): (r: Outcome<KeyAgreeValue>)
    requires 4 <= |items| <= 5
    ensures r != Panic
  {
    var version :- DecInt(items[0]);
    var originator :- DecTaggedOriginator(items[1]);
    var ukm :- DecUkm(items);
    var pos := if ukm.Some? then 3 else 2;
    var algorithm :- DecAlgorithm(items[pos].Encoding());
    var keys :- DecKeys(items[pos + 1].Encoding());
    Ok(KeyAgreeValue(version, originator, ukm, algorithm, keys))
  }

  /** Under a SEQUENCE or under the IMPLICIT tag of the alternative. */
  function DecKeyAgree(raw: bytes): (r: Outcome<KeyAgreeValue>)
    ensures r != Panic
  {
    var item :- Head(raw);
    if item.Tag() != SEQUENCE_TAG && item.Tag() != KEY_AGREE_TAG then Leave(KErrArgument)
    else
      var items :- Children(item);
      if |items| < 4 || |items| > 5 then Leave(KErrArgument) else DecKeyAgreeItems(items)
  }

  // --------------------------------------------------------------- round trip

  function NormKeyAgree(k: KeyAgreeValue): KeyAgreeValue {
    k.(originator := NormOriginator(k.originator), algorithm := NormAlgorithm(k.algorithm))
  }

  lemma KeysRoundTrip(keys: seq<EncryptedKeyValue>)
    requires EncKeys(keys).Ok? && Fits(EncKeys(keys).value)
    ensures DecKeys(Der(EncKeys(keys).value)) == Ok(keys)
  {
    hide EncWrappedKey, DecEncryptedKey, Tlv;
    DecodeNode(EncKeys(keys).value);
    EncodeAllKids(keys, EncWrappedKey);
    forall i | 0 <= i < |keys|
      ensures EncWrappedKey(keys[i]).Ok? && DecEncryptedKey(Der(EncWrappedKey(keys[i]).value)) == Ok(Same(keys[i]))
    {
      WrappedKeyRoundTrip(keys[i]);
    }
    ListRoundTrip(keys, EncWrappedKey, DecEncryptedKey, Same);
    assert MapAll(keys, Same) == keys;
  }

  function Same(k: EncryptedKeyValue): EncryptedKeyValue {
    k
  }

  lemma OriginatorFieldRoundTrip(o: OriginatorValue)
    requires EncOriginator(o).Ok? && Fits(ExplicitTag(EncOriginator(o).value, ORIGINATOR_TAG))
    ensures DecTaggedOriginator(ItemOf(ExplicitTag(EncOriginator(o).value, ORIGINATOR_TAG))) == Ok(NormOriginator(o))
  {
    hide EncOriginator, DecOriginator, NormOriginator;
    OriginatorRoundTrip(o);
  }

  lemma UkmRoundTrip(ukm: Option<bytes>, items: seq<Item>)
    requires |items| == 4 + |EncUkm(ukm)|
    requires if ukm.Some? then Fits(EncUkm(ukm)[0]) && items[2] == ItemOf(EncUkm(ukm)[0]) else items[2].Tag() != UKM_TAG
    ensures DecUkm(items) == Ok(ukm)
  {
    if ukm.Some? {
      ReadWholeDer(EncOctets(ukm.value));
    }
  }

  /** Read back with and without keying material and with any number of keys, none
      included, under a SEQUENCE and under the IMPLICIT tag. */
  lemma KeyAgreeRoundTrip(k: KeyAgreeValue, t: Enc)
    requires EncKeyAgree(k).Ok? && t.Node? && t.kids == EncKeyAgree(k).value.kids && Fits(t)
    requires ItemOf(t).Tag() == SEQUENCE_TAG || ItemOf(t).Tag() == KEY_AGREE_TAG
    ensures DecKeyAgree(Der(t)) == Ok(NormKeyAgree(k))
  {
    hide EncOriginator, NormOriginator, DecTaggedOriginator, EncUkm, DecUkm, EncKeyEncryptionAlgorithm, DecAlgorithm,
      NormAlgorithm, EncKeys, DecKeys, EncInt, DecInt, Tlv, ExplicitTag;
    var kids, items := t.kids, ItemsOf(t.kids);
    var pos := 2 + |EncUkm(k.ukm)|;
    DecodeNode(t);
    assert forall i :: 0 <= i < |kids| ==>
      Fits(kids[i]) && items[i] == ItemOf(kids[i]) && items[i].Encoding() == Der(kids[i]);
    assert kids[0] == EncInt(k.version) && kids[1] == ExplicitTag(EncOriginator(k.originator).value, ORIGINATOR_TAG);
    assert kids[pos] == EncKeyEncryptionAlgorithm(k.algorithm).value && kids[pos + 1] == EncKeys(k.keys).value;
    assert k.ukm.Some? ==> kids[2] == EncUkm(k.ukm)[0];
    IntRoundTrip(k.version);
    OriginatorFieldRoundTrip(k.originator);
    KeyEncryptionAlgorithmId(k.algorithm);
    UkmRoundTrip(k.ukm, items);
    KeyEncryptionAlgorithmRoundTrip(k.algorithm);
    KeysRoundTrip(k.keys);
  }

  // ------------------------------------------------------------------ objects

  class KeyAgreeRecipientInfo {
    var iVersion: TInt
    var iOriginator: OriginatorIdentifierOrKey
    var iUserKeyingMaterial: Option<bytes>
    var iKeyEncryptionAlgorithm: AlgorithmId
    var iRecipientEncryptedKeys: seq<EncryptedKeyValue>

    /** What the originator object owns. */
    ghost function Footprint(): set<object?>
      reads this, iOriginator
    {
      {iOriginator, iOriginator.iIssuerAndSerialNumber, iOriginator.iSubjectKeyIdentifier, iOriginator.iOriginatorKey}
    }

    ghost predicate Valid()
      reads this, iOriginator, Footprint()
    {
      iOriginator.Valid()
    }

    ghost function Value(): KeyAgreeValue
      reads this, iOriginator, Footprint()
      requires Valid()
    {
      KeyAgreeValue(iVersion, iOriginator.Value(), iUserKeyingMaterial, iKeyEncryptionAlgorithm,
        iRecipientEncryptedKeys)
    }

    constructor (originator: OriginatorIdentifierOrKey, algorithm: AlgorithmId, keys: seq<EncryptedKeyValue>)
      requires originator.Valid()
      ensures Valid() && Value() == KeyAgreeValue(KEY_AGREE_VERSION, originator.Value(), None, algorithm, keys)
    {
      var copy := CopyOriginator(originator);
      iVersion, iOriginator, iUserKeyingMaterial := KEY_AGREE_VERSION, copy, None;
      iKeyEncryptionAlgorithm, iRecipientEncryptedKeys := algorithm, keys;
    }

    /** A new object with an equal value, whichever alternative is stored. */
    static method CopyOriginator(o: OriginatorIdentifierOrKey) returns (copy: OriginatorIdentifierOrKey)
      requires o.Valid()
      ensures fresh(copy) && copy.Valid() && copy.Value() == o.Value()
    {
      copy := new OriginatorIdentifierOrKey();
      if o.iType == ESUBJECT_KEY_IDENTIFIER {
        var r := copy.SetSubjectKeyIdentifierL(o.iSubjectKeyIdentifier);
      } else if o.iType == EORIGINATOR_KEY {
        var r := copy.SetOriginatorKeyL(o.iOriginatorKey);
      } else {
        var r := copy.SetIssuerAndSerialNumberL(o.iIssuerAndSerialNumber);
      }
    }

    /** The argument may be the originator already stored. */
    method SetOriginatorL(originator: OriginatorIdentifierOrKey)
      requires Valid() && originator.Valid()
      modifies this`iOriginator
      ensures Valid() && Value() == old(Value()).(originator := old(originator.Value()))
      ensures fresh(iOriginator)
    {
      var copy := CopyOriginator(originator);
      iOriginator := copy;
    }

    /** The deep copy: equal keys in the same order, none included. */
    method SetRecipientEncryptedKeysL(keys: seq<EncryptedKeyValue>)
      requires Valid()
      modifies this`iRecipientEncryptedKeys
      ensures Valid() && Value() == old(Value()).(keys := keys)
    {
      var copies: seq<EncryptedKeyValue> := [];
      for i := 0 to |keys|
        invariant copies == keys[..i]
      {
        var newKey: RecipientEncryptedKey;
        if keys[i].rid.RecipientIssuer? {
          newKey := new RecipientEncryptedKey.FromIssuer(keys[i].rid.issuer, keys[i].encryptedKey);
        } else {
          newKey := new RecipientEncryptedKey.FromKeyId(keys[i].rid.keyId, keys[i].encryptedKey);
        }
        copies := copies + [newKey.Value()];
      }
      iRecipientEncryptedKeys := copies;
    }

    /** Nothing is replaced before everything has been decoded, and no item is read that is
        not there. */
    method DecodeL(raw: bytes) returns (r: Outcome<()>)
      requires Valid()
      modifies this
      ensures Valid()
      ensures r == Status(DecKeyAgree(raw))
      ensures Value() == if r.Ok? then DecKeyAgree(raw).value else old(Value())
    {
      hide DecTaggedOriginator, DecUkm, DecAlgorithm, DecInt, DecKeys, Tlv;
      var decGen :- Head(raw);
      if decGen.Tag() != SEQUENCE_TAG && decGen.Tag() != KEY_AGREE_TAG {
        return Leave(KErrArgument);
      }
      var itemsData :- Children(decGen);
      if |itemsData| < 4 || |itemsData| > 5 {
        return Leave(KErrArgument);
      }
      var sequenceCounter := 0;
      var version :- DecInt(itemsData[sequenceCounter]);
      sequenceCounter := sequenceCounter + 1;
      var originator :- DecodeOriginatorL(itemsData[sequenceCounter]);
      sequenceCounter := sequenceCounter + 1;
      var ukm :- DecodeUkmL(itemsData, sequenceCounter);
      if ukm.Some? {
        sequenceCounter := sequenceCounter + 1;
      }
      var algId :- DecAlgorithm(itemsData[sequenceCounter].Encoding());
      sequenceCounter := sequenceCounter + 1;
      var keys :- DecodeKeysL(itemsData[sequenceCounter]);
      iVersion := version;
      iOriginator := originator;
      iUserKeyingMaterial := ukm;
      iKeyEncryptionAlgorithm := algId;
      iRecipientEncryptedKeys := keys;
      r := Ok(());
    }

    static method DecodeUkmL(itemsData: seq<Item>, sequenceCounter: nat) returns (r: Outcome<Option<bytes>>)
      requires 4 <= |itemsData| && sequenceCounter == 2
      ensures r == DecUkm(itemsData)
    {
      hide DecFirst;
      var taggedUkm := itemsData[sequenceCounter];
      if taggedUkm.Tag() != UKM_TAG {
        return Ok(None);
      }
      var octets :- DecFirst(taggedUkm.contents);
      if |itemsData| < 5 {
        return Leave(KErrArgument);
      }
      r := Ok(Some(octets));
    }

    static method DecodeKeysL(item: Item) returns (r: Outcome<seq<EncryptedKeyValue>>)
      ensures r == DecKeys(item.Encoding())
    {
      hide DecodeSequence, DecodeAll, DecEncryptedKey, Tlv;
      var keysData :- DecodeSequence(item.Encoding());
      r := DecodeAllL(keysData, DecEncryptedKey);
    }

    static method DecodeOriginatorL(tagged: Item) returns (r: Outcome<OriginatorIdentifierOrKey>)
      ensures Status(r) == Status(DecTaggedOriginator(tagged))
      ensures r.Ok? ==> r.value.Valid() && r.value.Value() == DecTaggedOriginator(tagged).value
      ensures r.Ok? ==> fresh(r.value)
    {
      if tagged.Tag() != ORIGINATOR_TAG {
        return Leave(KErrArgument);
      }
      var originator := NewOriginator();
      var decoded :- originator.DecodeL(tagged.contents);
      r := Ok(originator);
    }

    /** CCMSOriginatorIdentifierOrKey::NewL: an empty issuer. */
    static method NewOriginator() returns (o: OriginatorIdentifierOrKey)
      ensures fresh(o) && o.Valid() && fresh(o.iIssuerAndSerialNumber)
      ensures o.iSubjectKeyIdentifier == null && o.iOriginatorKey == null
    {
      o := new OriginatorIdentifierOrKey();
      var empty := new HeapCell(IssuerSerialNumber([], []));
      var r := o.SetIssuerAndSerialNumberL(empty);
    }

    method EncoderLC() returns (r: Outcome<Enc>)
      requires Valid()
      ensures r == EncKeyAgree(Value())
    {
      hide EncOriginator, EncKeyEncryptionAlgorithm, EncWrappedKey, EncodeAll, EncInt, EncOctets, ExplicitTag;
      var root := [EncInt(iVersion)];
      var originator :- iOriginator.EncoderLC();
      root := root + [ExplicitTag(originator, ORIGINATOR_TAG)];
      if iUserKeyingMaterial.Some? {
        root := root + [ExplicitTag(EncOctets(iUserKeyingMaterial.value), UKM_TAG)];
      }
      var algorithm :- EncKeyEncryptionAlgorithm(iKeyEncryptionAlgorithm);
      root := root + [algorithm];
      var kids :- EncodeAllL(iRecipientEncryptedKeys, EncWrappedKey);
      root := root + [Node(SEQUENCE_ID, kids)];
      assert root == [EncInt(iVersion), ExplicitTag(originator, ORIGINATOR_TAG)] + EncUkm(iUserKeyingMaterial)
        + [algorithm, EncKeys(iRecipientEncryptedKeys).value];
      r := Ok(Node(SEQUENCE_ID, root));
    }
  }
}
