/** CCMSCertificateChoices: a certificate or, under IMPLICIT [1], an attribute
    certificate (section 10.2.2 of RFC 2630). */
module CmsCertificateChoices {
  import opened Outcomes
  import opened DerCodec
  import opened Asn1
  import opened CmsX509Certificate
  import opened CmsAttributeCertificate

  datatype ChoiceValue = Plain(certificate: CertificateValue) | Attribute(attrCert: AttributeCertificateValue)

  const ATTR_CERT_TAG: nat := 1

  function EncChoice(c: ChoiceValue): (r: Outcome<Enc>)
  {
    match c
    case Plain(certificate) => EncCertificate(certificate)
    case Attribute(attrCert) =>
      var t :- EncAttributeCertificate(attrCert);
      Ok(ImplicitTag(t, ATTR_CERT_TAG))
  }

  function DecChoice(raw: bytes): (r: Outcome<ChoiceValue>)
  {
    var item :- Head(raw);
    if item.Tag() == SEQUENCE_TAG then
      if item.Class() != Universal then Leave(KErrArgument)
      else
        var certificate :- DecCertificate(raw);
        Ok(Plain(certificate))
    else if item.Tag() == ATTR_CERT_TAG then
      if item.Class() != ContextSpecific then Leave(KErrArgument)
      else
        var attrCert :- DecImplicitAttributeCertificate(raw, ATTR_CERT_TAG);
        Ok(Attribute(attrCert))
    else Leave(KErrArgument)
  }

  /** Each alternative ends the thread as its own decoder does. */
  predicate ChoiceEndsThread(raw: bytes) {
    && Head(raw).Ok?
    && var item := Head(raw).value;
      || (item.Tag() == SEQUENCE_TAG && item.Class() == Universal && CertificateEndsThread(raw))
      || (item.Tag() == ATTR_CERT_TAG && item.Class() == ContextSpecific
          && ImplicitCertificateEndsThread(raw, ATTR_CERT_TAG))
  }

  lemma ChoicePanicExact(raw: bytes)
    ensures DecChoice(raw) == Panic <==> ChoiceEndsThread(raw)
  {
    hide DecCertificate, CertificateEndsThread, DecImplicitAttributeCertificate, ImplicitCertificateEndsThread, Head;
    CertificatePanicExact(raw);
    AttributeCertificatePanicExact(raw, ATTR_CERT_TAG);
  }

  function NormChoice(c: ChoiceValue): ChoiceValue {
    match c
    case Plain(certificate) => Plain(NormCertificate(certificate))
    case Attribute(attrCert) => Attribute(NormAttributeCertificate(attrCert))
  }

  predicate ChoiceReadable(c: ChoiceValue) {
    match c
    case Plain(certificate) => CertificateReadable(certificate)
    case Attribute(attrCert) => AttributeCertificateReadable(attrCert)
  }

  lemma ChoiceRoundTrip(c: ChoiceValue)
    requires EncChoice(c).Ok? && Fits(EncChoice(c).value)
    ensures DecChoice(Der(EncChoice(c).value)) == Ok(NormChoice(c)) <==> ChoiceReadable(c)
  {
    hide EncCertificate, DecCertificate, NormCertificate, EncAttributeCertificate, DecImplicitAttributeCertificate,
      NormAttributeCertificate, Tlv;
    ReadWholeDer(EncChoice(c).value);
    match c
    case Plain(certificate) => CertificateRoundTrip(certificate);
    case Attribute(attrCert) => AttributeCertificateRoundTrip(attrCert, ATTR_CERT_TAG);
  }

  /** The copy the setters make of a stored alternative. */
  function CopyChoice(c: ChoiceValue): (r: Outcome<ChoiceValue>)
    ensures r.Ok? ==> (r.value.Attribute? <==> c.Attribute?)
  {
    match c
    case Plain(certificate) => Ok(Plain(CopyCertificate(certificate)))
    case Attribute(attrCert) =>
      var copy :- CopyAttributeCertificate(attrCert);
      Ok(Attribute(copy))
  }

  class CertificateChoices {
    var iCertificate: Option<CertificateValue>
    var iAttrCert: Option<AttributeCertificateValue>

    /** Exactly one of the two pointers is set. */
    ghost predicate Valid()
      reads this
    {
      iCertificate.Some? <==> iAttrCert.None?
    }

    function Value(): ChoiceValue
      reads this
      requires Valid()
    {
      match iCertificate
      case Some(certificate) => Plain(certificate)
      case None => Attribute(iAttrCert.value)
    }

    /** Neither alternative is stored until ConstructL has set one. */
    constructor ()
      ensures iCertificate.None? && iAttrCert.None?
    {
      iCertificate, iAttrCert := None, None;
    }

    method DecodeL(raw: bytes) returns (r: Outcome<()>)
      requires Valid()
      modifies this
      ensures Valid()
      ensures r == Status(DecChoice(raw))
      ensures Value() == if r.Ok? then DecChoice(raw).value else old(Value())
    {
      var decGen :- Head(raw);
      if decGen.Tag() == SEQUENCE_TAG {
        if decGen.Class() != Universal {
          return Leave(KErrArgument);
        }
        var certificate :- DecCertificate(raw);
        iAttrCert := None;
        iCertificate := Some(certificate);
      } else if decGen.Tag() == ATTR_CERT_TAG {
        if decGen.Class() != ContextSpecific {
          return Leave(KErrArgument);
        }
        var attrCert :- DecImplicitAttributeCertificate(raw, ATTR_CERT_TAG);
        iCertificate := None;
        iAttrCert := Some(attrCert);
      } else {
        return Leave(KErrArgument);
      }
      r := Ok(());
    }

    method EncoderLC() returns (r: Outcome<Enc>)
      requires Valid()
      ensures r == EncChoice(Value())
    {
      if iCertificate.Some? {
        r := EncCertificate(iCertificate.value);
      } else {
        var encoder :- EncAttributeCertificate(iAttrCert.value);
        r := Ok(ImplicitTag(encoder, ATTR_CERT_TAG));
      }
    }

    method SetCertificateL(certificate: CertificateValue)
      modifies this
      ensures Valid() && Value() == Plain(CopyCertificate(certificate))
    {
      var copy := new X509Certificate(certificate.serial, certificate.signature, certificate.issuer,
        certificate.validity, certificate.subject, certificate.publicKeyInfo,
        certificate.algorithm, certificate.encrypted);
      copy.SetVersion(certificate.version);
      if certificate.issuerUid.Some? {
        copy.SetIssuerUniqueIdentifierL(certificate.issuerUid.value);
      }
      if certificate.subjectUid.Some? {
        copy.SetSubjectUniqueIdentifierL(certificate.subjectUid.value);
      }
      iAttrCert := None;
      iCertificate := Some(copy.iData);
    }

    /** A copy that leaves changes nothing. */
    method SetAttrCertL(attrCert: AttributeCertificateValue) returns (r: Outcome<()>)
      modifies this
      ensures r == Status(CopyAttributeCertificate(attrCert))
      ensures r.Ok? ==> Valid() && Value() == Attribute(CopyAttributeCertificate(attrCert).value)
      ensures !r.Ok? ==> unchanged(this)
    {
      var copy := new AttributeCertificate();
      var copied :- copy.ConstructL(attrCert.info, attrCert.algorithm, attrCert.encrypted);
      iCertificate := None;
      iAttrCert := Some(copy.Value());
      r := Ok(());
    }
  }
}
