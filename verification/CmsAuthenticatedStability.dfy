/** When a decoded authenticated-data is encoded again, to the octet: like signed-data,
    exactly when no algorithm identifier in it had been left without parameters. */
module CmsAuthenticatedStability {
  import opened Outcomes
  import opened DerCodec
  import opened Asn1
  import opened AlgorithmIdentifier
  import opened CmsAttribute
  import opened CmsEncapsulatedContentInfo
  import opened CmsCertificateChoices
  import opened CmsCertificateList
  import opened CmsSignedData
  import opened CmsOriginatorInfo
  import opened CmsOriginatorIdentifierOrKey
  import opened CmsRecipientInfo
  import opened CmsKeyAgreeRecipientInfo
  import opened CmsAuthenticatedData
  import opened CmsStability

  // --------------------------------------------------------------- recipients

  lemma KeyEncryptionAlgorithmReencoded(a: AlgorithmId)
    requires EncKeyEncryptionAlgorithm(a).Ok?
    ensures EncKeyEncryptionAlgorithm(NormAlgorithm(a)).Ok?
    ensures Alike(EncKeyEncryptionAlgorithm(NormAlgorithm(a)).value, EncKeyEncryptionAlgorithm(a).value)
    ensures EncKeyEncryptionAlgorithm(NormAlgorithm(a)) == EncKeyEncryptionAlgorithm(a) <==> HasParams(a)
  {
    hide EncAlgorithm, NormAlgorithm, Wrap;
    WrappedAlgorithmStable(a);
  }

  predicate OriginatorHasParams(o: OriginatorValue) {
    o.OriginatorKey? ==> HasParams(o.publicKey.algorithm)
  }

  lemma OriginatorReencoded(o: OriginatorValue)
    requires EncOriginator(o).Ok?
    ensures EncOriginator(NormOriginator(o)).Ok?
    ensures Alike(EncOriginator(NormOriginator(o)).value, EncOriginator(o).value)
    ensures EncOriginator(NormOriginator(o)) == EncOriginator(o) <==> OriginatorHasParams(o)
  {
    hide EncAlgorithm, NormAlgorithm, Wrap;
    if o.OriginatorKey? {
      var p := o.publicKey;
      WrappedAlgorithmStable(p.algorithm);
      var t, u := EncOriginator(o).value, EncOriginator(NormOriginator(o)).value;
      assert t.kids[0] == Wrap(EncAlgorithm(p.algorithm).value).value;
      assert u.kids[0] == Wrap(EncAlgorithm(NormAlgorithm(p.algorithm)).value).value;
      NodesAlike(u, t);
    } else {
      AlikeSelf(EncOriginator(o).value);
    }
  }

  predicate RecipientHasParams(r: RecipientValue) {
    match r
    case KeyTrans(trans) => HasParams(trans.algorithm)
    case KeyAgree(agree) => HasParams(agree.algorithm) && OriginatorHasParams(agree.originator)
    case Kek(kek) => HasParams(kek.algorithm)
  }

  lemma KeyTransReencoded(k: KeyTransValue)
    requires EncKeyTrans(k).Ok?
    ensures EncKeyTrans(NormKeyTrans(k)).Ok?
    ensures Alike(EncKeyTrans(NormKeyTrans(k)).value, EncKeyTrans(k).value)
    ensures EncKeyTrans(NormKeyTrans(k)) == EncKeyTrans(k) <==> HasParams(k.algorithm)
  {
    hide EncKeyEncryptionAlgorithm, NormAlgorithm, EncInt, HasParams, Wrap;
    KeyEncryptionAlgorithmReencoded(k.algorithm);
    var t, u := EncKeyTrans(k).value, EncKeyTrans(NormKeyTrans(k)).value;
    assert t.kids[2] == EncKeyEncryptionAlgorithm(k.algorithm).value;
    assert u.kids[2] == EncKeyEncryptionAlgorithm(NormAlgorithm(k.algorithm)).value;
    NodesAlike(u, t);
  }

  lemma KekReencoded(k: KekValue)
    requires EncKek(k).Ok?
    ensures EncKek(NormKek(k)).Ok?
    ensures Alike(EncKek(NormKek(k)).value, EncKek(k).value)
    ensures EncKek(NormKek(k)) == EncKek(k) <==> HasParams(k.algorithm)
  {
    hide EncKeyEncryptionAlgorithm, NormAlgorithm, EncInt, HasParams, Wrap;
    KeyEncryptionAlgorithmReencoded(k.algorithm);
    var t, u := EncKek(k).value, EncKek(NormKek(k)).value;
    assert t.kids[2] == EncKeyEncryptionAlgorithm(k.algorithm).value;
    assert u.kids[2] == EncKeyEncryptionAlgorithm(NormAlgorithm(k.algorithm)).value;
    NodesAlike(u, t);
  }

  lemma KeyAgreeReencoded(k: KeyAgreeValue)
    requires EncKeyAgree(k).Ok?
    ensures EncKeyAgree(NormKeyAgree(k)).Ok?
    ensures Alike(EncKeyAgree(NormKeyAgree(k)).value, EncKeyAgree(k).value)
    ensures EncKeyAgree(NormKeyAgree(k)) == EncKeyAgree(k)
      <==> HasParams(k.algorithm) && OriginatorHasParams(k.originator)
  {
    hide EncKeyEncryptionAlgorithm, NormAlgorithm, EncOriginator, NormOriginator, EncInt, EncKeys, EncUkm, HasParams,
      OriginatorHasParams;
    KeyEncryptionAlgorithmReencoded(k.algorithm);
    OriginatorReencoded(k.originator);
    var t, u := EncKeyAgree(k).value, EncKeyAgree(NormKeyAgree(k)).value;
    var originator, after := EncOriginator(k.originator).value, EncOriginator(NormOriginator(k.originator)).value;
    assert t.kids[1] == ExplicitTag(originator, ORIGINATOR_TAG) && u.kids[1] == ExplicitTag(after, ORIGINATOR_TAG);
    assert ExplicitTag(originator, ORIGINATOR_TAG).kids[0] == originator
      && ExplicitTag(after, ORIGINATOR_TAG).kids[0] == after;
    var pos := 2 + |EncUkm(k.ukm)|;
    assert t.kids[pos] == EncKeyEncryptionAlgorithm(k.algorithm).value;
    assert u.kids[pos] == EncKeyEncryptionAlgorithm(NormAlgorithm(k.algorithm)).value;
    NodesAlike(u.kids[1], t.kids[1]);
    NodesAlike(u, t);
  }

  lemma RecipientReencoded(r: RecipientValue)
    requires EncRecipient(r).Ok?
    ensures EncRecipient(NormRecipient(r)).Ok?
    ensures Alike(EncRecipient(NormRecipient(r)).value, EncRecipient(r).value)
    ensures EncRecipient(NormRecipient(r)) == EncRecipient(r) <==> RecipientHasParams(r)
  {
    hide EncKeyTrans, NormKeyTrans, EncKeyAgree, NormKeyAgree, EncKek, NormKek, HasParams, OriginatorHasParams;
    match r
    case KeyTrans(trans) => KeyTransReencoded(trans);
    case KeyAgree(agree) =>
      KeyAgreeReencoded(agree);
      RetagSame(EncKeyAgree(agree).value, EncKeyAgree(NormKeyAgree(agree)).value, KEY_AGREE_TAG);
    case Kek(kek) =>
      KekReencoded(kek);
      RetagSame(EncKek(kek).value, EncKek(NormKek(kek)).value, KEK_TAG);
  }

  lemma RecipientStable(r: RecipientValue)
    requires EncRecipient(r).Ok?
    ensures EncRecipient(NormRecipient(r)).Ok?
    ensures Der(EncRecipient(NormRecipient(r)).value) == Der(EncRecipient(r).value) <==> RecipientHasParams(r)
  {
    hide Der, EncRecipient, NormRecipient, RecipientHasParams;
    RecipientReencoded(r);
    DerOfAlike(EncRecipient(NormRecipient(r)).value, EncRecipient(r).value);
  }

  lemma RetagSame(t: Enc, u: Enc, tag: ContextTag)
    requires t.Node? && u.Node? && t.id == u.id
    ensures ImplicitTag(u, tag) == ImplicitTag(t, tag) <==> u == t
    ensures Alike(u, t) ==> Alike(ImplicitTag(u, tag), ImplicitTag(t, tag))
  {
  }

  lemma RecipientsReencoded(recipients: seq<RecipientValue>)
    requires EncRecipients(recipients).Ok?
    ensures EncRecipients(MapAll(recipients, NormRecipient)).Ok?
    ensures Alike(EncRecipients(MapAll(recipients, NormRecipient)).value, EncRecipients(recipients).value)
    ensures EncRecipients(MapAll(recipients, NormRecipient)) == EncRecipients(recipients) <==>
      AllOf(recipients, RecipientHasParams)
  {
    hide EncRecipient, NormRecipient, RecipientHasParams, AllOf, MapAll;
    forall r: RecipientValue ensures Reencodes(r, EncRecipient, NormRecipient, RecipientHasParams) {
      if EncRecipient(r).Ok? {
        RecipientReencoded(r);
      }
    }
    ListReencoded(recipients, EncRecipient, NormRecipient, RecipientHasParams);
  }

  // ------------------------------------------------------------ optional fields

  lemma PresentListReencoded<T>(list: Option<seq<T>>, id: byte, enc: T -> Outcome<Enc>, norm: T -> T, stable: T -> bool)
    requires EncPresentList(list, id, enc).Ok?
    requires list.Some? ==> forall i :: 0 <= i < |list.value| ==> Reencodes(list.value[i], enc, norm, stable)
    ensures EncPresentList(MapOptional(list, norm), id, enc).Ok?
    ensures AllAlike(EncPresentList(MapOptional(list, norm), id, enc).value, EncPresentList(list, id, enc).value)
    ensures EncPresentList(MapOptional(list, norm), id, enc) == EncPresentList(list, id, enc)
      <==> AllReadable(list, stable)
  {
    if list.Some? {
      ListReencoded(list.value, enc, norm, stable);
      var kids := EncodeAll(list.value, enc).value;
      var norms := EncodeAll(MapAll(list.value, norm), enc).value;
      assert [Node(id, norms)][0] == Node(id, norms) && [Node(id, kids)][0] == Node(id, kids);
    }
  }

  predicate OriginatorInfoHasParams(v: OriginatorInfoValue) {
    AllReadable(v.certs, ChoiceHasParams) && AllReadable(v.crls, CrlHasParams)
  }

  lemma OriginatorListsReencoded(v: OriginatorInfoValue)
    requires EncOriginatorInfo(v).Ok?
    ensures var certs, crls := MapOptional(v.certs, NormChoice), MapOptional(v.crls, NormCrl);
      && EncPresentList(certs, CERTIFICATES_ID, EncChoice).Ok? && EncPresentList(crls, CRLS_ID, EncCrl).Ok?
      && AllAlike(EncPresentList(certs, CERTIFICATES_ID, EncChoice).value,
        EncPresentList(v.certs, CERTIFICATES_ID, EncChoice).value)
      && AllAlike(EncPresentList(crls, CRLS_ID, EncCrl).value, EncPresentList(v.crls, CRLS_ID, EncCrl).value)
      && (EncPresentList(certs, CERTIFICATES_ID, EncChoice) == EncPresentList(v.certs, CERTIFICATES_ID, EncChoice)
        <==> AllReadable(v.certs, ChoiceHasParams))
      && (EncPresentList(crls, CRLS_ID, EncCrl) == EncPresentList(v.crls, CRLS_ID, EncCrl)
        <==> AllReadable(v.crls, CrlHasParams))
  {
    hide EncChoice, NormChoice, EncCrl, NormCrl, ChoiceHasParams, CrlHasParams, EncPresentList, AllReadable,
      MapOptional;
    forall c: ChoiceValue ensures Reencodes(c, EncChoice, NormChoice, ChoiceHasParams) {
      if EncChoice(c).Ok? {
        ChoiceReencoded(c);
      }
    }
    forall c: CrlValue ensures Reencodes(c, EncCrl, NormCrl, CrlHasParams) {
      CrlHasParamsMeaning(c);
      if EncCrl(c).Ok? {
        CrlReencoded(c);
      }
    }
    PresentListReencoded(v.certs, CERTIFICATES_ID, EncChoice, NormChoice, ChoiceHasParams);
    PresentListReencoded(v.crls, CRLS_ID, EncCrl, NormCrl, CrlHasParams);
  }

  lemma CrlHasParamsMeaning(c: CrlValue)
    ensures CrlHasParams(c) <==> c.signatureAlgorithm.params != []
  {
  }

  lemma OriginatorInfoReencoded(v: OriginatorInfoValue)
    requires EncOriginatorInfo(v).Ok?
    ensures EncOriginatorInfo(NormOriginatorInfo(v)).Ok?
    ensures Alike(EncOriginatorInfo(NormOriginatorInfo(v)).value, EncOriginatorInfo(v).value)
    ensures EncOriginatorInfo(NormOriginatorInfo(v)) == EncOriginatorInfo(v) <==> OriginatorInfoHasParams(v)
  {
    hide EncPresentList, AllReadable, MapOptional;
    OriginatorListsReencoded(v);
    var n := NormOriginatorInfo(v);
    assert n.certs.Some? == v.certs.Some? by { SamePresence(v.certs, NormChoice); }
    var certs, after := EncPresentList(v.certs, CERTIFICATES_ID, EncChoice).value,
      EncPresentList(n.certs, CERTIFICATES_ID, EncChoice).value;
    var t, u := EncOriginatorInfo(v).value, EncOriginatorInfo(n).value;
    assert t.kids[..|certs|] == certs && u.kids[..|certs|] == after;
    assert t.kids[|certs|..] == EncPresentList(v.crls, CRLS_ID, EncCrl).value;
    assert u.kids[|certs|..] == EncPresentList(n.crls, CRLS_ID, EncCrl).value;
    NodesAlike(u, t);
  }

  lemma OriginatorInfoStable(v: OriginatorInfoValue)
    requires EncOriginatorInfo(v).Ok?
    ensures EncOriginatorInfo(NormOriginatorInfo(v)).Ok?
    ensures Der(EncOriginatorInfo(NormOriginatorInfo(v)).value) == Der(EncOriginatorInfo(v).value)
      <==> OriginatorInfoHasParams(v)
  {
    hide Der, EncOriginatorInfo, NormOriginatorInfo, OriginatorInfoHasParams;
    OriginatorInfoReencoded(v);
    DerOfAlike(EncOriginatorInfo(NormOriginatorInfo(v)).value, EncOriginatorInfo(v).value);
  }

  lemma SamePresence<T>(list: Option<seq<T>>, norm: T -> T)
    ensures MapOptional(list, norm).Some? == list.Some?
  {
  }

  lemma AttributeFieldsStable(list: Option<seq<AttributeValue>>, id: byte)
    requires EncPresentList(list, id, EncAttribute).Ok?
    ensures EncPresentList(MapOptional(list, NormAttribute), id, EncAttribute) == EncPresentList(list, id, EncAttribute)
  {
    hide EncAttribute, NormAttribute;
    if list.Some? {
      EncodeAllKids(list.value, EncAttribute);
      forall i | 0 <= i < |list.value|
        ensures EncAttribute(MapAll(list.value, NormAttribute)[i]) == EncAttribute(list.value[i])
      {
        AttributeStable(list.value[i]);
      }
      EncodeAllSame(MapAll(list.value, NormAttribute), list.value, EncAttribute);
    }
  }

  predicate OriginatorFieldHasParams(o: Option<OriginatorInfoValue>) {
    o.Some? ==> OriginatorInfoHasParams(o.value)
  }

  lemma OriginatorFieldReencoded(o: Option<OriginatorInfoValue>)
    requires EncOriginatorField(o).Ok?
    ensures EncOriginatorField(NormOriginatorField(o)).Ok?
    ensures AllAlike(EncOriginatorField(NormOriginatorField(o)).value, EncOriginatorField(o).value)
    ensures EncOriginatorField(NormOriginatorField(o)) == EncOriginatorField(o) <==> OriginatorFieldHasParams(o)
  {
    hide EncOriginatorInfo, NormOriginatorInfo, OriginatorInfoHasParams;
    if o.Some? {
      OriginatorInfoReencoded(o.value);
      RetagSame(EncOriginatorInfo(o.value).value, EncOriginatorInfo(NormOriginatorInfo(o.value)).value,
        ORIGINATOR_INFO_TAG);
      assert EncOriginatorField(o).value[0] == ImplicitTag(EncOriginatorInfo(o.value).value, ORIGINATOR_INFO_TAG);
      assert EncOriginatorField(NormOriginatorField(o)).value[0]
        == ImplicitTag(EncOriginatorInfo(NormOriginatorInfo(o.value)).value, ORIGINATOR_INFO_TAG);
    }
  }

  predicate DigestHasParams(a: Option<AlgorithmId>) {
    a.Some? ==> HasParams(a.value)
  }

  lemma DigestFieldReencoded(a: Option<AlgorithmId>)
    requires EncDigestField(a).Ok?
    ensures EncDigestField(NormDigestField(a)).Ok?
    ensures AllAlike(EncDigestField(NormDigestField(a)).value, EncDigestField(a).value)
    ensures EncDigestField(NormDigestField(a)) == EncDigestField(a) <==> DigestHasParams(a)
  {
    hide EncAlgorithm, NormAlgorithm;
    if a.Some? {
      AlgorithmReencoded(a.value);
      var t, u := EncAlgorithm(a.value).value, EncAlgorithm(NormAlgorithm(a.value)).value;
      assert EncDigestField(a).value[0].kids[0] == t && EncDigestField(NormDigestField(a)).value[0].kids[0] == u;
      NodesAlike(EncDigestField(NormDigestField(a)).value[0], EncDigestField(a).value[0]);
    }
  }

  // --------------------------------------------------------- authenticated data

  predicate AuthenticatedDataHasParams(v: AuthenticatedDataValue) {
    && OriginatorFieldHasParams(v.originatorInfo)
    && AllOf(v.recipients, RecipientHasParams)
    && HasParams(v.macAlgorithm)
    && DigestHasParams(v.digestAlgorithm)
  }

  lemma SameOptions(v: AuthenticatedDataValue)
    ensures var n := NormAuthenticatedData(v);
      && n.version == v.version && n.contentInfo == v.contentInfo && n.mac == v.mac
      && n.originatorInfo == NormOriginatorField(v.originatorInfo)
        && n.recipients == MapAll(v.recipients, NormRecipient)
      && n.macAlgorithm == NormAlgorithm(v.macAlgorithm) && n.digestAlgorithm == NormDigestField(v.digestAlgorithm)
      && n.authenticated == MapOptional(v.authenticated, NormAttribute)
      && n.unauthenticated == MapOptional(v.unauthenticated, NormAttribute)
      && LayoutOf(n) == LayoutOf(v)
      && (n.originatorInfo.Some? <==> v.originatorInfo.Some?) && (n.digestAlgorithm.Some? <==> v.digestAlgorithm.Some?)
  {
    hide NormAlgorithm, NormOriginatorInfo, NormRecipient, NormAttribute, MapAll;
  }

  /** Two encodings with the same optional fields are equal exactly when the fields that
      hold algorithm identifiers are. */
  lemma SameAuthFields(v: AuthenticatedDataValue, n: AuthenticatedDataValue)
    requires EncAuthenticatedData(v).Ok? && EncAuthenticatedData(n).Ok?
    requires n.version == v.version && n.contentInfo == v.contentInfo && n.mac == v.mac && LayoutOf(n) == LayoutOf(v)
    requires (n.originatorInfo.Some? <==> v.originatorInfo.Some?)
      && (n.digestAlgorithm.Some? <==> v.digestAlgorithm.Some?)
    requires EncPresentList(n.authenticated, AUTHENTICATED_ID, EncAttribute)
      == EncPresentList(v.authenticated, AUTHENTICATED_ID, EncAttribute)
    requires EncPresentList(n.unauthenticated, UNAUTHENTICATED_ID, EncAttribute)
      == EncPresentList(v.unauthenticated, UNAUTHENTICATED_ID, EncAttribute)
    ensures EncAuthenticatedData(n) == EncAuthenticatedData(v) <==>
      && EncOriginatorField(n.originatorInfo) == EncOriginatorField(v.originatorInfo)
      && EncRecipients(n.recipients) == EncRecipients(v.recipients)
      && EncAlgorithm(n.macAlgorithm) == EncAlgorithm(v.macAlgorithm)
      && EncDigestField(n.digestAlgorithm) == EncDigestField(v.digestAlgorithm)
  {
    hide EncOriginatorField, EncRecipients, EncAlgorithm, EncDigestField, EncContentInfo, EncInt, EncPresentList,
      EncOctets;
    FieldsInPlace(v);
    FieldsInPlace(n);
    var at := LayoutOf(v);
    var t, u := EncAuthenticatedData(v).value, EncAuthenticatedData(n).value;
    var o, p := EncOriginatorField(v.originatorInfo).value, EncOriginatorField(n.originatorInfo).value;
    var d, e := EncDigestField(v.digestAlgorithm).value, EncDigestField(n.digestAlgorithm).value;
    if u == t {
      assert |o| == 1 ==> o == [t.kids[1]] && p == [u.kids[1]];
      assert |d| == 1 ==> d == [t.kids[at.recipients + 2]] && e == [u.kids[at.recipients + 2]];
      assert t.kids[at.recipients] == u.kids[at.recipients];
    }
  }

  /** The encoders of the fields that hold algorithm identifiers are alike. */
  predicate AuthFieldsAlike(n: AuthenticatedDataValue, v: AuthenticatedDataValue)
    requires EncAuthenticatedData(n).Ok? && EncAuthenticatedData(v).Ok?
  {
    && AllAlike(EncOriginatorField(n.originatorInfo).value, EncOriginatorField(v.originatorInfo).value)
    && Alike(EncRecipients(n.recipients).value, EncRecipients(v.recipients).value)
    && Alike(EncAlgorithm(n.macAlgorithm).value, EncAlgorithm(v.macAlgorithm).value)
    && AllAlike(EncDigestField(n.digestAlgorithm).value, EncDigestField(v.digestAlgorithm).value)
  }

  lemma AuthFieldsAlikeNode(v: AuthenticatedDataValue, n: AuthenticatedDataValue)
    requires EncAuthenticatedData(v).Ok? && EncAuthenticatedData(n).Ok? && AuthFieldsAlike(n, v)
    requires n.version == v.version && n.contentInfo == v.contentInfo && n.mac == v.mac
    requires EncPresentList(n.authenticated, AUTHENTICATED_ID, EncAttribute)
      == EncPresentList(v.authenticated, AUTHENTICATED_ID, EncAttribute)
    requires EncPresentList(n.unauthenticated, UNAUTHENTICATED_ID, EncAttribute)
      == EncPresentList(v.unauthenticated, UNAUTHENTICATED_ID, EncAttribute)
    ensures Alike(EncAuthenticatedData(n).value, EncAuthenticatedData(v).value)
  {
    hide EncOriginatorField, EncRecipients, EncAlgorithm, EncDigestField, EncContentInfo, EncInt, EncPresentList,
      EncOctets, Alike;
    NodesAlike(EncAuthenticatedData(n).value, EncAuthenticatedData(v).value);
  }

  lemma AuthFieldsReencoded(v: AuthenticatedDataValue)
    requires EncAuthenticatedData(v).Ok?
    ensures var n := NormAuthenticatedData(v);
      && EncAuthenticatedData(n).Ok? && AuthFieldsAlike(n, v)
      && EncPresentList(n.authenticated, AUTHENTICATED_ID, EncAttribute)
        == EncPresentList(v.authenticated, AUTHENTICATED_ID, EncAttribute)
      && EncPresentList(n.unauthenticated, UNAUTHENTICATED_ID, EncAttribute)
        == EncPresentList(v.unauthenticated, UNAUTHENTICATED_ID, EncAttribute)
      && (EncOriginatorField(n.originatorInfo) == EncOriginatorField(v.originatorInfo)
        <==> OriginatorFieldHasParams(v.originatorInfo))
      && (EncRecipients(n.recipients) == EncRecipients(v.recipients) <==> AllOf(v.recipients, RecipientHasParams))
      && (EncAlgorithm(n.macAlgorithm) == EncAlgorithm(v.macAlgorithm) <==> HasParams(v.macAlgorithm))
      && (EncDigestField(n.digestAlgorithm) == EncDigestField(v.digestAlgorithm)
        <==> DigestHasParams(v.digestAlgorithm))
  {
    hide EncOriginatorField, NormOriginatorField, EncRecipients, EncAlgorithm, NormAlgorithm, EncDigestField,
      NormDigestField, EncPresentList, MapOptional, MapAll, AllOf, OriginatorFieldHasParams, DigestHasParams,
      NormAuthenticatedData, LayoutOf, EncInt, EncContentInfo, EncOctets, NormRecipient, NormAttribute;
    SameOptions(v);
    FieldsInPlace(v);
    OriginatorFieldReencoded(v.originatorInfo);
    RecipientsReencoded(v.recipients);
    AlgorithmReencoded(v.macAlgorithm);
    DigestFieldReencoded(v.digestAlgorithm);
    AttributeFieldsStable(v.authenticated, AUTHENTICATED_ID);
    AttributeFieldsStable(v.unauthenticated, UNAUTHENTICATED_ID);
  }

  /** An authenticated-data that has been decoded is encoded to the octets it came from
      exactly when no algorithm identifier in it, at any depth, had been left without
      parameters. */
  lemma AuthenticatedDataStable(v: AuthenticatedDataValue)
    requires EncAuthenticatedData(v).Ok?
    ensures EncAuthenticatedData(NormAuthenticatedData(v)).Ok?
    ensures Der(EncAuthenticatedData(NormAuthenticatedData(v)).value) == Der(EncAuthenticatedData(v).value)
      <==> AuthenticatedDataHasParams(v)
  {
    hide Der, EncAuthenticatedData, NormAuthenticatedData, AuthenticatedDataHasParams;
    AuthenticatedDataReencoded(v);
    DerOfAlike(EncAuthenticatedData(NormAuthenticatedData(v)).value, EncAuthenticatedData(v).value);
  }

  lemma AuthenticatedDataReencoded(v: AuthenticatedDataValue)
    requires EncAuthenticatedData(v).Ok?
    ensures EncAuthenticatedData(NormAuthenticatedData(v)).Ok?
    ensures Alike(EncAuthenticatedData(NormAuthenticatedData(v)).value, EncAuthenticatedData(v).value)
    ensures EncAuthenticatedData(NormAuthenticatedData(v)) == EncAuthenticatedData(v) <==> AuthenticatedDataHasParams(v)
  {
    hide EncAuthenticatedData, NormAuthenticatedData, LayoutOf, EncOriginatorField, EncRecipients, EncAlgorithm,
      EncDigestField, EncPresentList, AllOf, HasParams, OriginatorFieldHasParams, DigestHasParams, AuthFieldsAlike;
    AuthFieldsReencoded(v);
    SameOptions(v);
    SameAuthFields(v, NormAuthenticatedData(v));
    AuthFieldsAlikeNode(v, NormAuthenticatedData(v));
  }
}
