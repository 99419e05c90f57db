# CMS objects and the certificate mover, verified

A Dafny model of two parts of the security services of this repository, with proofs that
`dafny verify dfyconfig.toml` checks.

**The CMS and X.509 object codec (`cms/src`).** Every class holds one ASN.1 structure in
its fields, prints it to DER (`EncoderLC`) and parses it back (`DecodeL`). The model goes
down to octets.

- `DerCodec`, `Asn1`, `CmsSequence`: identifier octets, minimal lengths, encoder trees, the
  primitive types, the loops over lists, and writing into a buffer of the computed size.
- `TimeUtil`, `AlgorithmIdentifier`, `CmsAttribute`, `CmsEncapsulatedContentInfo`,
  `CmsIssuerAndSerialNumber`, `CmsGeneralNames`, `CmsSigned`: the building blocks.
- `CmsX509Certificate`, `CmsAttributeCertificate`, `CmsCertificateChoices`,
  `CmsCertificateList`, `CmsSignerInfo`, `CmsSignedData`: signed-data, six levels deep;
  `CmsStability` says when decoding and encoding again reproduces the octets.
- `CmsOriginatorInfo`, `CmsKeyIdentifier`, `CmsOriginatorIdentifierOrKey`,
  `CmsRecipientInfo`, `CmsKeyAgreeRecipientInfo`, `CmsAuthenticatedData`:
  authenticated-data with its three kinds of recipients; `CmsAuthenticatedStability` is
  its counterpart of `CmsStability`, and `CmsWrittenForm` says for both which values are
  already in their written form.
- `CmsThreadEnds`: which octets end the thread when they are decoded as either.
- `CmsReceived`: octets from elsewhere, what becomes of them when they are passed on, and
  when the octets that are digested are those that were received.

For each structure `X` there is a value type, an encoding function `EncX` into encoder
trees, a decoding function `DecX` from octets, and a function `NormX` that gives the
written form of its opaque parts. The central statement is always
`DecX(Der(EncX(v).value)) == Ok(NormX(v)) <==> XReadable(v)`: the condition on the right is
what a caller can check beforehand, and it is exact; where nothing can go wrong it is
missing. When `NormX(v)` is `v` itself is said, again exactly, in `CmsWrittenForm`. What is
written is tied to RFC 2630 and RFC 2459 by the `Layout` lemmas. Beside the functions there
is a class with the source's fields, whose methods advance a cursor,
run the loops and replace fields as the source does. They are proved to compute these
functions and, except for a few small classes that assign field by field, to change nothing
when they fail. A leave is the result `Leave`, an array index out of range or an array of
granularity zero is the result `Panic`.

**The certificate mover and the active objects around it
(`cpsecplugins/cpadvancedsecplugin/src`).**

- `CertificateMover` is the mover's state machine as functions and as a class that
  computes them; `MoverRuns` runs it against two key stores and two certificate stores
  which complete every request with success or any error, and which may have carried out
  a request that failed or was cancelled.
- `LabeledCertInfo`, `CertListBuilder` and `CertificateModel` are the list builder and the
  model that drives both as nested active objects; `ActiveObjects` has their request
  statuses, which may be completed only once. `CertListRuns` runs the list builder again
  and again, and says what a run that fails does to the later ones.

## What is assumed

- The ASN.1 library is not part of the repository. Its decoders of contents look only at
  the contents octets, which the repository relies on when it applies them to implicitly
  tagged values; short integers have one to four octets; extracting octets from a bit
  string leaves when there are none (`cms/src/CCMSOriginatorPublicKey.cpp:164-177` works
  around that); an encoder built from an existing encoding forces the constructed bit;
  `SetTag` without a class means context-specific; an encoding longer than a 32-bit length
  can say leaves with KErrNoMemory. These are written out in `Asn1`.
- Object identifiers are their contents octets, distinguished names are the contents of
  their RDNSequence, algorithm parameters are kept as they were encoded, and the data of a
  certificate extension is the encoding of an OCTET STRING.
- The stores are changed only by the mover's own requests. An import or an addition does
  not overwrite another object, a successful request took place, and a listing replaces
  the array it is given. An export may fill the buffer it is given or put a new one in its
  place; a retrieval fills the descriptor it is given. A listed certificate that is in the
  source store is what the store holds under its handle.
- The name parser of the list builder is a function of the certificate. Case folding is
  that of the basic alphabet.

## What does not hold

- Algorithm parameters that are left empty are written as a NULL, read back as the
  encoding of that NULL, and written again with the constructed bit, so the octets change
  (`AlgorithmIdentifier.AlgorithmStable`, `CmsStability.SignedDataStable`,
  `CmsAuthenticatedStability.AuthenticatedDataStable`).
- A subject key identifier is written as a plain OCTET STRING in a signer info and under an
  EXPLICIT tag in a key transport info, and the digest algorithm of authenticated-data has
  an EXPLICIT tag; RFC 2630 has IMPLICIT tags there. The URL attribute carries a
  context-specific tag 22 instead of an IA5String.
- The octets that are digested for a signer info from elsewhere are those it was received
  with exactly when each signed attribute was received in canonical form
  (`CmsReceived.DigestInputReceived`).
- Some octets end the thread. For signed-data and authenticated-data as a whole these are
  given exactly (`CmsThreadEnds.SignedDataPanicExact`,
  `CmsThreadEnds.AuthenticatedDataPanicExact`), in terms of the parts that do it:
  - attributes without values, empty recipient lists and empty lists in an originator info,
    all of which are encoded (`CmsAttribute.AttributePanicExact`,
    `CmsAuthenticatedData.RecipientsPanicExact`,
    `CmsOriginatorInfo.OriginatorInfoPanicExact`, `CmsSignerInfo.SignerPanicExact`);
  - certificates and infos of attribute certificates that have six items of which the first
    is a version, unless one of the items makes the decoder leave before
    (`CmsX509Certificate.CertificatePanicExact`, `CmsAttributeCertificate.InfoPanicExact`);
  - implicitly tagged attribute certificates with no items, one item, or two items of which
    the second is a known algorithm
    (`CmsAttributeCertificate.AttributeCertificatePanicExact`).
- The in-place deletion of URL attributes ends the thread for lists with a URL attribute
  before the last place, which decoding and `SetUnsignedAttributesL` can bring in
  (`CmsSignerInfo.RemoveUrlAttributes`, `CmsSignerInfo.SetterRuns`).
- A serial number is taken exactly only if 32 bits hold it, and two fall together when they
  differ by a multiple of 2^32 (`CmsCertificateList.SerialExact`,
  `CmsCertificateList.SerialsFallTogether`).
- A copy of an attribute certificate info with both subjects has only one of them
  (`CmsAttributeCertificate.CopyAttributeCertificateExact`); decoding never gives both.
- A revocation list without a next update is read with time zero, and the next update is
  always written. Its presence is kept exactly when it was there
  (`CmsCertificateList.NextUpdateAdded`, `CmsCertificateList.AcceptedWithoutNextUpdate`,
  `CmsCertificateList.ListWithoutNextUpdate`).
- The default signed-data does not have the version its content type asks for
  (`CmsSignedData.SignedData.ConstructDefaultL`), and it stays wrong until one of the three
  setters that validate it succeeds (`CmsSignedData.VersionOverRuns`).
- A mover whose initialisation has been cancelled accepts one more call and never answers
  it (`MoverRuns.PendingMeansActive`, `MoverRuns.CallAfterCancelHangs`). The model never
  does that: it deletes the mover instead.
- Certificates are retrieved through a descriptor that was set up to describe the mover's
  first buffer, and added from the buffer the mover has. If the key store puts exported keys
  into new buffers, what is added after an export is the last key, once for each
  certificate, and the certificates are then deleted. A move that succeeds has lost none
  exactly when the descriptor still has its buffer or each listed certificate was in the
  target before or is what the buffer holds (`MoverRuns.SuccessKeepsExact`,
  `MoverRuns.CertificateIsLost`), and no run loses one exactly as long as none is removed
  for which that does not hold (`MoverRuns.NothingIsLost`).
- After a failed run the list builder returns the entries of that run once more
  (`CertListBuilder.OnlyListedIffNothingStale`). A certificate that was on its way stays, and
  is taken for that of the first entry of the next run if that one needs none. If it has a
  name, the entry gets a wrong label; if it cannot be parsed, as the empty buffer that
  a retrieval leaves when it is cancelled or fails before anything is written, the next run
  that lists something fails as well, and so do all later ones that do, until a listing
  starts with an authority certificate
  (`CertListBuilder.LeftoverMislabels`, `CertListRuns.NextRunExact`,
  `CertListRuns.PoisonedFails`, `CertListRuns.FailedRetrievalPoisons`).

## Model

| member | source | states |
|---|---|---|
| DerCodec.ReadTlvEncoding | cms/src/CCMSSequence.cpp:43-57 | one value is read back from the front of any octets, whatever its length form and whatever follows it |
| DerCodec.ReadTlvSound | cms/src/CCMSSequence.cpp:43-57 | whatever is read is the only value whose encoding the octets start with |
| DerCodec.ItemsConcat | cms/src/CCMSSequence.cpp:52-57 | concatenated encodings split into exactly the values they were made of, in order |
| DerCodec.ItemsSound | cms/src/CCMSSequence.cpp:52-57 | a successful split concatenates back to the same octets |
| DerCodec.ConcatInjective | cms/src/CCMSSequence.cpp:52-57 | two lists of values with the same concatenation are equal |
| DerCodec.ItemsOfNode | cms/src/CCMSSequence.cpp:39-59 | the contents of an encoder tree split into one item per child |
| DerCodec.DerOfAlike | cms/src/CCMSSequence.cpp:104-113 | two encoder trees that differ in identifiers and in leaves of the same size only are equal exactly when their octets are |
| DerCodec.KidsReproduced | cms/src/CCMSSequence.cpp:52-113 | children are written as the contents octets of a received value exactly when each is written as the item in its place |
| DerCodec.LengthDerExact | cms/src/CCMSSequence.cpp:104-113 | at every nesting level the length computed beforehand is the number of octets of the encoding, short and long forms included |
| DerCodec.FitsBySize | cms/src/CCMSSequence.cpp:104-113 | an encoding that fits a descriptor has only representable lengths inside it |
| CmsSequence.WriteDer | cms/src/CCMSSequence.cpp:104-113 | writes exactly the encoding at the position, returns the position behind it, touches nothing else in the buffer |
| CmsSequence.WriteContents | cms/src/CCMSSequence.cpp:104-113 | the loop over the children fills exactly the contents octets |
| CmsSequence.CreateDerEncoding | cms/src/CCMSSequence.cpp:89-113 | a buffer of the computed size is filled exactly by the encoding |
| Asn1.DecodeBoundedSequence | cms/src/CCMSSequence.cpp:68-82 | a success has a number of items within the bounds; wrong tags and wrong counts leave, nothing panics |
| Asn1.DecodeNode | cms/src/CCMSSequence.cpp:39-59 | decoding the encoding of a constructed value gives its children, as a SEQUENCE, a SET or under any tag |
| Asn1.RewrittenStable | cms/src/CCMSAttribute.cpp:43-79 | wrapping an existing encoding a second time changes nothing |
| Asn1.RewrittenExact | cms/src/CCMSAttribute.cpp:43-79 | wrapping keeps the octets exactly when they are one value and that value is constructed |
| Asn1.IdentifierParts | cms/src/CCMSX509GeneralName.cpp:141-155 | class, constructed bit and tag determine the identifier octet |
| Asn1.IntRoundTrip | cms/src/CCMSX509CertificateList.cpp:480-482 | every 32-bit integer survives the minimal INTEGER encoding and the short decoding |
| Asn1.TwosComplementMinimal | cms/src/CCMSX509CertificateList.cpp:480-482 | section 8.3.2 of X.690: the first nine bits of an INTEGER are never all equal |
| Asn1.NameRoundTrip | cms/src/CCMSIssuerAndSerialNumber.cpp:103-146 | a distinguished name is read back from its encoding |
| Asn1.ListRoundTripExact | cms/src/CCMSSignedData.cpp:197-206 | a loop that encodes a list and a loop that decodes it are inverse exactly when they are for every element, for any length |
| Asn1.DecodeAllL | cms/src/CCMSSignedData.cpp:197-206 | the decoding loop computes the list function and leaves as its first failing element does |
| Asn1.DecodeAllPanics | cms/src/CCMSSignedData.cpp:197-206 | a decoding loop ends the thread exactly when the first element that is not decoded does |
| Asn1.DecodeAllEnds | cms/src/CCMSSignedData.cpp:197-206 | for any element decoder and the exact condition under which it ends the thread: the loop does exactly when some element meets that condition and all before it are decoded |
| Asn1.EncodeAllL | cms/src/CCMSSignedData.cpp:359-365 | the encoding loop computes the list function and leaves as its first failing element does |
| Asn1.CopyAllL | cms/src/CCMSSignedData.cpp:545-556 | the copying loop computes the list function and leaves as its first failing element does |
| TimeUtil.TimeRoundTrip | cms/src/TCMSTimeUtil.cpp:35-87 | every time at whole seconds is read back; UTCTime is written for exactly the years 1950 to 2049 (section 11.3 of RFC 2630) |
| TimeUtil.TimeDigits | cms/src/TCMSTimeUtil.cpp:35-59 | the written form: two or four digits of the year, then month, day, hour, minute, second, and a Z |
| TimeUtil.GeneralizedTimeRoundTrip | cms/src/CCMSKeyIdentifier.cpp:147-153 | every time is read back from a GeneralizedTime |
| AlgorithmIdentifier.OidInverse | cms/src/CCMSX509AlgorithmIdentifier.cpp:131-314 | every object identifier written names the pair of algorithms it was written for |
| AlgorithmIdentifier.AlgorithmRoundTrip | cms/src/CCMSX509AlgorithmIdentifier.cpp:131-314 | every identifier that can be encoded is read back, its parameters in written form |
| AlgorithmIdentifier.AlgorithmStable | cms/src/CCMSX509AlgorithmIdentifier.cpp:212-314 | encoding a decoded identifier reproduces its octets exactly when the parameters were not left empty, and always from the second time on |
| AlgorithmIdentifier.WrappedAlgorithmStable | cms/src/CCMSRecipientInfo.cpp:63-72 | the same for an algorithm identifier that is added as a finished encoding |
| CmsAttribute.ValueStable | cms/src/CCMSAttribute.cpp:43-79 | whatever the attribute type, a value does not change again after its first encoding |
| CmsAttribute.AttributeRoundTrip | cms/src/CCMSAttribute.cpp:229-294 | an attribute is read back with its values in written form; one without values is encoded and panics when decoded |
| CmsAttribute.AttributePanicExact | cms/src/CCMSAttribute.cpp:229-264 | two or three items the second of which has no contents are the only input that ends the thread |
| CmsAttribute.AttributesPanicExact | cms/src/CCMSSignerInfo.cpp:222-253 | a list of attributes ends the thread exactly when the first one that is not decoded has an empty value set |
| CmsAttribute.AttributeStable | cms/src/CCMSAttribute.cpp:229-294 | decoding and encoding again reproduces the octets |
| CmsAttribute.Attribute.DecodeL | cms/src/CCMSAttribute.cpp:229-264 | computes the decoding function; a failure keeps the old values, but may already have replaced the type |
| CmsAttribute.Attribute.EncoderLC | cms/src/CCMSAttribute.cpp:270-294 | the loop over the values computes the encoding function |
| CmsEncapsulatedContentInfo.ContentInfoRoundTrip | cms/src/CCMSEncapsulatedContentInfo.cpp:129-184 | with and without content, any content info is read back unchanged |
| CmsEncapsulatedContentInfo.EncapsulatedContentInfo.DecodeL | cms/src/CCMSEncapsulatedContentInfo.cpp:129-158 | computes the decoding function; a failure keeps the old content |
| CmsIssuerAndSerialNumber.IssuerRoundTrip | cms/src/CCMSIssuerAndSerialNumber.cpp:103-146 | issuer and raw serial number octets, minimal or not, are read back unchanged |
| CmsIssuerAndSerialNumber.IssuerAndSerialNumber.DecodeL | cms/src/CCMSIssuerAndSerialNumber.cpp:103-125 | computes the decoding function; a failure changes nothing |
| CmsSignerInfo.SignerInfoLayout | cms/src/CCMSSignerInfo.cpp:267-335 | identifier octets and order of the fields written; the key identifier as a plain OCTET STRING |
| CmsSignerInfo.SignerIdRoundTrip | cms/src/CCMSSignerInfo.cpp:203-216 | the identifier is read back as stored exactly when version 1 goes with issuer and serial number and any other version with a key identifier |
| CmsSignerInfo.SignerInfoRoundTrip | cms/src/CCMSSignerInfo.cpp:190-335 | read back, opaque values in written form, exactly when version and identifier agree and no attribute is without values |
| CmsSignerInfo.AttributeFieldRoundTrip | cms/src/CCMSSignerInfo.cpp:222-253 | an optional attribute field is found by its tag alone and read back exactly when every attribute has values |
| CmsSignerInfo.SignerInfoStable | cms/src/CCMSSignerInfo.cpp:190-335 | encoding a decoded signer info reproduces the octets exactly when neither algorithm had its parameters left empty |
| CmsSignerInfo.SignerPanicExact | cms/src/CCMSSignerInfo.cpp:190-261 | which octets end the thread: five to seven items, readable up to the [0] field, with an attribute without values there, or, everything up to the signature being readable, in the [1] field; and nothing else |
| CmsSignerInfo.DigestInputDiffersInTagOnly | cms/src/CCMSSignerInfo.cpp:385-405 | section 5.4 of RFC 2630: the digested octets are those of the [0] field but for the identifier octet |
| CmsSignerInfo.DigestInputPreserved | cms/src/CCMSSignerInfo.cpp:190-405 | after transport SignedAttributesEncodedL returns the same octets, although every value has been re-encoded by its type |
| CmsReceived.DigestInputReceived | cms/src/CCMSSignerInfo.cpp:190-405 | for a signer info from elsewhere: SignedAttributesEncodedL returns the octets received in the [0] field but for the identifier octet, exactly when there are attributes and each was received in canonical form |
| CmsReceived.AttributeReproducedExact | cms/src/CCMSAttribute.cpp:229-294 | what is decoded from received octets of an attribute is encoded to them exactly when they are a SEQUENCE of just an OBJECT IDENTIFIER and a SET, with every value in the form its type is written in |
| CmsSignerInfo.RemoveUrlAttributes | cms/src/CCMSSignerInfo.cpp:449-458 | the in-place deletion loop panics exactly when a URL attribute is anywhere but last, and otherwise deletes all of them and keeps the order of the rest |
| CmsSignerInfo.UrlFirstPanics | cms/src/CCMSSignerInfo.cpp:449-458 | a list with a URL attribute in front of another one violates the condition, and setting a certificate then ends the thread |
| CmsSignerInfo.SetterRuns | cms/src/CCMSSignerInfo.cpp:190-615 | a sequence of setters and decodings, failing ones included, gets through exactly when nothing that is decoded meets the condition on octets above and no certificate is set while the attributes that came in last have a URL attribute before their last place; the CHOICE then holds, the loop is safe exactly when it was on those attributes, and no attribute but URL attributes was moved, dropped or added |
| CmsSignerInfo.SignedAttributesReadable | cms/src/CCMSSignerInfo.cpp:540-604 | content type, digest and signing time can be read from the attributes built, and the list can be encoded and has no attribute without values |
| CmsSignerInfo.SignerInfo.FromUrl | cms/src/CCMSSignerInfo.cpp:91-129 | construction establishes the CHOICE and the condition of the deletion loop |
| CmsSignerInfo.SignerInfo.FromCertificate | cms/src/CCMSSignerInfo.cpp:106-129 | construction establishes the CHOICE and the condition of the deletion loop |
| CmsSignerInfo.SignerInfo.DecodeL | cms/src/CCMSSignerInfo.cpp:190-261 | the cursor stays within the items; a success establishes the CHOICE, a failure at any depth leaves the object unchanged |
| CmsSignerInfo.SignerInfo.EncoderLC | cms/src/CCMSSignerInfo.cpp:267-335 | computes the encoding function |
| CmsSignerInfo.SignerInfo.SignedAttributesEncodedL | cms/src/CCMSSignerInfo.cpp:385-405 | nothing for no attributes, otherwise the encoding of their SET |
| CmsSignerInfo.SignerInfo.SetCertificateL | cms/src/CCMSSignerInfo.cpp:437-465 | succeeds exactly under the condition of the deletion loop; the whole new state |
| CmsSignerInfo.SignerInfo.SetCertificateUrlL | cms/src/CCMSSignerInfo.cpp:470-502 | succeeds exactly under the condition of the deletion loop; the whole new state |
| CmsSignerInfo.SignerInfo.SetSignedAttributesL | cms/src/CCMSSignerInfo.cpp:540-604 | the attribute list built from the arguments, empty ones left out |
| CmsSignerInfo.SignerInfo.SetUnsignedAttributesL | cms/src/CCMSSignerInfo.cpp:609-615 | the attributes are taken over as they are, nothing else changes |
| CmsCertificateList.CrlLayout | cms/src/CCMSX509CertificateList.cpp:432-529 | identifier octets and order of the fields written, version always 1 |
| CmsCertificateList.ExtensionRoundTrip | cms/src/CCMSX509CertificateList.cpp:404-426 | an extension is read back with its data in written form |
| CmsCertificateList.RevokedRoundTrip | cms/src/CCMSX509CertificateList.cpp:335-364 | a revoked entry is read back with and without extensions |
| CmsCertificateList.TbsTailRoundTrip | cms/src/CCMSX509CertificateList.cpp:315-374 | next update, revoked list and extensions are told apart by tag for every combination |
| CmsCertificateList.CrlRoundTrip | cms/src/CCMSX509CertificateList.cpp:262-529 | a list is read back at every nesting level with version 1, or leaves exactly when its signature is empty |
| CmsCertificateList.CrlStable | cms/src/CCMSX509CertificateList.cpp:262-529 | encoding a decoded list reproduces the octets exactly when the parameters of its algorithm had not been left empty |
| CmsCertificateList.NextUpdateAdded | cms/src/CCMSX509CertificateList.cpp:315-322 | a list that has been decoded and is encoded again keeps the presence of the next update exactly when its octets had one; otherwise time zero is added as a GeneralizedTime and the octets differ |
| CmsCertificateList.AcceptedWithoutNextUpdate | cms/src/CCMSX509CertificateList.cpp:315-322 | every list that can be encoded and has a signature, whatever its entries and extensions, is accepted without its next update, with time zero in its place |
| CmsCertificateList.ListWithoutNextUpdate | cms/src/CCMSX509CertificateList.cpp:315-322 | octets that are accepted without a next update and get one |
| CmsCertificateList.SerialNumber | cms/src/CCMSX509CertificateList.cpp:149-159 | for any non-empty octets the shift-and-add loop yields the signed big-endian value modulo 2^32 |
| CmsCertificateList.SerialExact | cms/src/CCMSX509CertificateList.cpp:149-159 | a serial number is taken exactly if and only if 32 bits hold its value, which four octets always allow |
| CmsCertificateList.SerialsFallTogether | cms/src/CCMSX509CertificateList.cpp:149-159 | two serial numbers of any lengths fall together exactly when they differ by a multiple of 2^32 |
| CmsCertificateList.SerialCollision | cms/src/CCMSX509CertificateList.cpp:149-159 | two serial numbers of five octets and of one octet that do |
| CmsCertificateList.SerialSurvives | cms/src/CCMSX509CertificateList.cpp:346-349 | the value of the loop survives encoding and short decoding |
| CmsCertificateList.CertificateList.DecodeL | cms/src/CCMSX509CertificateList.cpp:262-399 | a failure at any depth leaves the parameters unchanged |
| CmsCertificateList.CertificateList.DecodeMandatoryFields | cms/src/CCMSX509CertificateList.cpp:273-313 | three items and one check cover every access of the cursor |
| CmsCertificateList.CertificateList.DecodeOptionalFields | cms/src/CCMSX509CertificateList.cpp:315-374 | the cursor over the optional fields computes the decoding function |
| CmsCertificateList.CertificateList.EncoderLC | cms/src/CCMSX509CertificateList.cpp:432-575 | computes the encoding function, empty lists left out |
| CmsCertificateList.CertificateList.SetParametersL | cms/src/CCMSX509CertificateList.cpp:590-606 | accepts exactly the parameters with an issuer, a signature, an algorithm and version 1; a refusal changes nothing |
| CmsGeneralNames.BaseIsExact | cms/src/CCMSX509GeneralName.cpp:132-162 | the base encoder reproduces the carried value octet by octet, constructed bit included |
| CmsGeneralNames.GeneralNameRoundTrip | cms/src/CCMSX509GeneralName.cpp:93-162 | tag and carried value are read back, primitive or constructed |
| CmsGeneralNames.GeneralNameExact | cms/src/CCMSX509GeneralName.cpp:93-162 | a name is read back unchanged exactly when its data is one value and nothing more |
| CmsGeneralNames.GeneralNamesRoundTrip | cms/src/CCMSX509GeneralNames.cpp:116-167 | a list of names is read back in order; the empty one leaves with KErrArgument |
| CmsGeneralNames.GeneralNames.DecodeL | cms/src/CCMSX509GeneralNames.cpp:116-145 | a failure keeps the old names |
| CmsGeneralNames.GeneralNames.SetGeneralNamesL | cms/src/CCMSX509GeneralNames.cpp:182-212 | the deep copy is equal name by name; an empty list is refused |
| CmsGeneralNames.IssuerSerialRoundTrip | cms/src/CCMSX509IssuerSerial.cpp:132-195 | read back exactly when the names are not empty and no unique identifier is an empty bit string |
| CmsSigned.SignedRoundTrip | cms/src/CCMSX509Signed.cpp:55-130 | the three parts are read back, or the decoder leaves exactly when the encrypted part is empty |
| CmsSigned.SignatureArrayPanics | cms/src/CCMSX509Signed.cpp:103-130 | items end the thread exactly when there are none, one, or two the second of which is a known algorithm |
| CmsX509Certificate.CertificateLayout | cms/src/CCMSX509Certificate.cpp:525-578 | identifier octets and order of the fields that are signed |
| CmsX509Certificate.ValidityRoundTrip | cms/src/CCMSX509Validity.cpp:107-148 | both times are read back |
| CmsX509Certificate.PublicKeyInfoRoundTrip | cms/src/CCMSX509SubjectPublicKeyInfo.cpp:151-196 | read back, or leaves exactly when the key is empty |
| CmsX509Certificate.CertificateRoundTrip | cms/src/CCMSX509Certificate.cpp:197-312 | with and without unique identifiers, read back exactly when no bit string is empty |
| CmsX509Certificate.CertificateCursor | cms/src/CCMSX509Certificate.cpp:197-295 | the cursor runs past the items exactly for six items that start with a version which can be read and go on with a serial number, an algorithm, a name, a validity and a name that can; six items that start with a version never decode |
| CmsX509Certificate.CertificatePanicExact | cms/src/CCMSX509Certificate.cpp:197-295 | no other octets end the thread |
| CmsX509Certificate.TruncatedCertificatePanics | cms/src/CCMSX509Certificate.cpp:197-295 | every certificate that is cut off before its key and signed ends the thread |
| CmsX509Certificate.CertificateThatPanics | cms/src/CCMSX509Certificate.cpp:197-295 | octets that do |
| CmsX509Certificate.CopyExact | cms/src/CCMSX509Certificate.cpp:492-519 | a copy through the setters is equal exactly when a unique identifier comes with version 2 or 3 |
| CmsX509Certificate.X509Certificate.DecodeL | cms/src/CCMSX509Certificate.cpp:197-295 | a failure at any depth leaves the object unchanged |
| CmsX509Certificate.X509Certificate.SetIssuerUniqueIdentifierL | cms/src/CCMSX509Certificate.cpp:492-503 | sets the identifier and raises versions other than 2 and 3 to 2 |
| CmsAttributeCertificate.SubjectRoundTrip | cms/src/CCMSX509AttributeCertificateInfo.cpp:348-366 | the CHOICE of subject is read back under its EXPLICIT tag exactly when its names are not empty |
| CmsAttributeCertificate.InfoRoundTrip | cms/src/CCMSX509AttributeCertificateInfo.cpp:221-413 | read back exactly when one subject is stored, no list of names and no bit string is empty and every attribute has values |
| CmsAttributeCertificate.InfoCursor | cms/src/CCMSX509AttributeCertificateInfo.cpp:221-334 | where the five fields before the attributes can be read, the thread ends exactly when no item follows or the attributes end it |
| CmsAttributeCertificate.InfoPanicExact | cms/src/CCMSX509AttributeCertificateInfo.cpp:221-334 | the same for octets: six items that start with a version, or attributes that end the thread, and nothing else |
| CmsAttributeCertificate.AttributeSequencePanics | cms/src/CCMSX509AttributeCertificateInfo.cpp:300-317 | the attributes end the thread exactly when the first one that is not decoded does |
| CmsAttributeCertificate.TruncatedInfoPanics | cms/src/CCMSX509AttributeCertificateInfo.cpp:221-334 | every readable info that is cut off before its attributes ends the thread |
| CmsAttributeCertificate.InfoThatPanics | cms/src/CCMSX509AttributeCertificateInfo.cpp:221-334 | octets that do |
| CmsAttributeCertificate.AttributeCertificateRoundTrip | cms/src/CCMSX509AttributeCertificate.cpp:114-269 | read back under its own and under any IMPLICIT tag exactly when its parts are |
| CmsAttributeCertificate.AttributeCertificatePanicExact | cms/src/CCMSX509AttributeCertificate.cpp:217-269 | under its own tag only the info can end the thread; under an IMPLICIT one also no items, one item, or two the second of which is a known algorithm, and nothing else |
| CmsAttributeCertificate.EmptyImplicitCertificatePanics | cms/src/CCMSX509AttributeCertificate.cpp:217-269 | octets of the first of these kinds |
| CmsAttributeCertificate.CopyAttributeCertificateExact | cms/src/CCMSX509AttributeCertificate.cpp:170-211 | a copy is equal exactly when one subject is stored and no list of names is empty, so whatever can be read back is copied exactly |
| CmsAttributeCertificate.AttributeCertificateInfo.DecodeL | cms/src/CCMSX509AttributeCertificateInfo.cpp:221-334 | a failure leaves the object unchanged, a success establishes the CHOICE |
| CmsAttributeCertificate.AttributeCertificateInfo.ConstructFromBaseCertificateL | cms/src/CCMSX509AttributeCertificateInfo.cpp:74-92 | the setters build a complete info with one subject, or leave exactly when a list of names is empty |
| CmsAttributeCertificate.AttributeCertificateInfo.ConstructFromSubjectNameL | cms/src/CCMSX509AttributeCertificateInfo.cpp:99-117 | the same for a subject name |
| CmsAttributeCertificate.AttributeCertificateInfo.SetBaseCertificateIDL | cms/src/CCMSX509AttributeCertificateInfo.cpp:526-543 | stores a copy of one alternative and clears the other; empty names are refused and change nothing |
| CmsAttributeCertificate.AttributeCertificateInfo.SetSubjectNameL | cms/src/CCMSX509AttributeCertificateInfo.cpp:548-558 | stores one alternative and clears the other; empty names are refused and change nothing |
| CmsAttributeCertificate.AttributeCertificate.SetInfoL | cms/src/CCMSX509AttributeCertificate.cpp:170-211 | the copy built through the setters is the one of the copying function; a refusal changes nothing |
| CmsCertificateChoices.ChoiceRoundTrip | cms/src/CCMSCertificateChoices.cpp:165-252 | both alternatives are read back, told apart by tag and class, exactly when their parts are |
| CmsCertificateChoices.ChoicePanicExact | cms/src/CCMSCertificateChoices.cpp:165-213 | which octets end the thread: those of either alternative that do, under the tag and class by which it is told apart |
| CmsCertificateChoices.CertificateChoices.DecodeL | cms/src/CCMSCertificateChoices.cpp:165-213 | exactly one alternative stays stored; a failure keeps the old one |
| CmsCertificateChoices.CertificateChoices.EncoderLC | cms/src/CCMSCertificateChoices.cpp:239-252 | computes the encoding function of the stored alternative |
| CmsCertificateChoices.CertificateChoices.SetCertificateL | cms/src/CCMSCertificateChoices.cpp:277-308 | stores a copy built through the setters of the certificate |
| CmsCertificateChoices.CertificateChoices.SetAttrCertL | cms/src/CCMSCertificateChoices.cpp:313-327 | stores a copy built through the setters of the attribute certificate; a copy that leaves changes nothing |
| CmsSignedData.SignedDataLayout | cms/src/CCMSSignedData.cpp:342-421 | section 5.1 of RFC 2630: identifier octets and order of the fields for every combination of the optional lists |
| CmsSignedData.EmptyEncodesAsAbsent | cms/src/CCMSSignedData.cpp:372-402 | an empty list of certificates or of revocation lists is encoded as an absent one |
| CmsSignedData.SignedDataRoundTrip | cms/src/CCMSSignedData.cpp:173-421 | whatever can be encoded is read back equal at every nesting level, opaque values in written form, exactly when each nested part is readable |
| CmsSignedData.CertificatesRoundTrip | cms/src/CCMSSignedData.cpp:215-236 | the certificate field is found by its tag and read back exactly when each certificate is readable |
| CmsSignedData.CrlsRoundTrip | cms/src/CCMSSignedData.cpp:238-262 | the revocation list field is found by its tag and read back exactly when no signature is empty |
| CmsSignedData.SignerCopies | cms/src/CCMSSignedData.cpp:545-556 | copying signer infos by encoding and decoding gives the written form of each, in order, and the same list where they already have it |
| CmsSignedData.CrlCopies | cms/src/CCMSSignedData.cpp:635-647 | copying revocation lists by encoding and decoding gives the written form of each, in order, and the same list where they already have it |
| CmsSignedData.VersionOverRuns | cms/src/CCMSSignedData.cpp:484-705 | after any sequence of the five setters, failing ones included, from any value, the default one too, the version is the one section 5.1 of RFC 2630 asks for exactly when it was right before or one of the calls validated it |
| CmsSignedData.VersionTransported | cms/src/CCMSSignedData.cpp:173-335 | the version is right after encoding and decoding exactly when it was before |
| CmsThreadEnds.SignedDataPanicExact | cms/src/CCMSSignedData.cpp:173-335 | which octets end the thread when they are decoded as signed-data, for everything nested in it: the certificates, or behind readable lists the signer infos; and nothing else |
| CmsThreadEnds.CertificatesPanicExact | cms/src/CCMSSignedData.cpp:215-236 | the certificate field does exactly when its first certificate that is not decoded does; an empty field does not |
| CmsThreadEnds.CrlsNeverPanic | cms/src/CCMSSignedData.cpp:238-262 | no revocation list field ends the thread, whatever its octets |
| CmsSignedData.SignedData.ConstructDefaultL | cms/src/CCMSSignedData.cpp:55-66 | the default object has version 1 beside an empty content type, which is not the version section 5.1 of RFC 2630 asks for |
| CmsSignedData.SignedData.ConstructL | cms/src/CCMSSignedData.cpp:73-86 | the setters run in an order that never validates the version without signer infos; the result is complete and its version right |
| CmsSignedData.SignedData.SetDigestAlgorithmIdentifiersL | cms/src/CCMSSignedData.cpp:484-513 | an exact copy of the list, nothing else changed |
| CmsSignedData.SignedData.SetEncapsulatedContentInfoL | cms/src/CCMSSignedData.cpp:519-529 | an exact copy, and the version that goes with it |
| CmsSignedData.SignedData.SetSignerInfosL | cms/src/CCMSSignedData.cpp:535-566 | the copied list and the version that goes with it, or no change at all |
| CmsSignedData.SignedData.SetCertificatesL | cms/src/CCMSSignedData.cpp:572-615 | the copied list and the version that goes with it, or no change at all |
| CmsSignedData.SignedData.SetRevokedCertificatesL | cms/src/CCMSSignedData.cpp:621-658 | the copied list, or no change at all |
| CmsSignedData.SignedData.ValidateVersion | cms/src/CCMSSignedData.cpp:664-705 | version 3 for another content type, a version 3 signer info or an attribute certificate, and 1 otherwise |
| CmsSignedData.SignedData.DecodeL | cms/src/CCMSSignedData.cpp:173-335 | the cursor stays within the items; a failure at any depth leaves every field unchanged |
| CmsSignedData.SignedData.EncoderLC | cms/src/CCMSSignedData.cpp:342-421 | computes the encoding function, in the order in which missing algorithms and signers are noticed |
| CmsStability.SignedDataStable | cms/src/CCMSSignedData.cpp:173-421 | encoding a decoded signed-data reproduces its octets exactly when no algorithm identifier in it, at any depth, had been left without parameters |
| CmsStability.CertificateStable | cms/src/CCMSX509Certificate.cpp:197-312 | the same for a certificate and its three algorithm identifiers |
| CmsStability.AttributeCertificateStable | cms/src/CCMSX509AttributeCertificate.cpp:114-155 | the same for an attribute certificate and its two algorithm identifiers |
| CmsStability.GeneralNamesStable | cms/src/CCMSX509GeneralNames.cpp:116-167 | encoding decoded names reproduces their octets |
| CmsWrittenForm.SignedDataUnchanged | cms/src/CCMSSignedData.cpp:173-421 | a signed-data is in its written form exactly when each opaque encoding in it is one value under the identifier the encoder gives it, no list is present but empty, and revocation lists have version 1 |
| CmsWrittenForm.SignedDataReadBack | cms/src/CCMSSignedData.cpp:173-421 | what is readable is read back unchanged, octet by octet, exactly when it is in its written form |
| CmsWrittenForm.AlgorithmUnchanged | cms/src/CCMSX509AlgorithmIdentifier.cpp:212-314 | parameters are in written form exactly when they are one constructed value |
| CmsWrittenForm.ValueUnchanged | cms/src/CCMSAttribute.cpp:43-79 | an attribute value is in written form exactly when it is one value: an OBJECT IDENTIFIER, an OCTET STRING, the kind of time that goes with its year, or constructed, as its type asks for |
| CmsWrittenForm.TimeUnchanged | cms/src/TCMSTimeUtil.cpp:35-87 | a time that can be read is written again with the same octets exactly when it is one value of the kind that goes with its year |
| CmsWrittenForm.CrlUnchanged | cms/src/CCMSX509CertificateList.cpp:262-529 | when a revocation list is in its written form |
| CmsReceived.DecodedSignedData | cms/src/CCMSSignedData.cpp:173-335 | whatever octets are accepted, what is decoded from them meets the exact condition for being read back, at every nesting level |
| CmsReceived.AcceptedAgain | cms/src/CCMSSignedData.cpp:173-421 | whatever octets are accepted, encoding what was decoded gives octets that are accepted again, as the same signed-data in written form |
| CmsReceived.ReproducedExact | cms/src/CCMSSignedData.cpp:173-421 | accepted octets are reproduced exactly when they are what the encoder writes for some readable signed-data in which no algorithm identifier is without parameters |
| CmsOriginatorInfo.OriginatorInfoRoundTrip | cms/src/CCMSOriginatorInfo.cpp:78-293 | read back under its own and under any IMPLICIT tag exactly when no list that is present is empty and every element is readable; empty certificates end the thread, and so do empty revocation lists behind readable certificates |
| CmsOriginatorInfo.OriginatorInfoPanicExact | cms/src/CCMSOriginatorInfo.cpp:78-293 | which octets end the thread, under its own and under any IMPLICIT tag: certificates that are present but none, or the first of which that is not decoded does, or behind readable certificates revocation lists that are present but none; and nothing else |
| CmsOriginatorInfo.OriginatorInfo.DecodeArrayL | cms/src/CCMSOriginatorInfo.cpp:202-293 | the cursor stays within the items; a failure changes neither list |
| CmsOriginatorInfo.OriginatorInfo.DecodeImplicitTagL | cms/src/CCMSOriginatorInfo.cpp:174-196 | computes the decoding function under the given tag |
| CmsOriginatorInfo.OriginatorInfo.EncoderLC | cms/src/CCMSOriginatorInfo.cpp:93-126 | computes the encoding function, present but empty lists written |
| CmsKeyIdentifier.KeyIdentifierRoundTrip | cms/src/CCMSKeyIdentifier.cpp:122-265 | with and without date, read back under its own and under any IMPLICIT tag |
| CmsKeyIdentifier.KeyIdentifier.DecodeArrayL | cms/src/CCMSKeyIdentifier.cpp:235-265 | computes the decoding function; a bad date leaves the new identifier beside the old date |
| CmsKeyIdentifier.EncryptedKeyRoundTrip | cms/src/CCMSRecipientEncryptedKey.cpp:133-214 | both kinds of identifier are read back, the key identifier through its IMPLICIT tag on a wrapped encoding |
| CmsKeyIdentifier.RecipientEncryptedKey.DecodeL | cms/src/CCMSRecipientEncryptedKey.cpp:133-174 | exactly one identifier stays stored; a failure changes nothing |
| CmsKeyIdentifier.RecipientEncryptedKey.EncoderLC | cms/src/CCMSRecipientEncryptedKey.cpp:181-214 | computes the encoding function of the stored identifier |
| CmsKeyIdentifier.RecipientEncryptedKey.SetRKeyIdL | cms/src/CCMSRecipientEncryptedKey.cpp:278-297 | stores one identifier and clears the other |
| CmsKeyIdentifier.RecipientEncryptedKey.SetIssuerAndSerialNumberL | cms/src/CCMSRecipientEncryptedKey.cpp:262-272 | stores one identifier and clears the other |
| CmsOriginatorIdentifierOrKey.PublicKeyRoundTrip | cms/src/CCMSOriginatorPublicKey.cpp:138-204 | every key, the empty one included, is read back under any constructed tag |
| CmsOriginatorIdentifierOrKey.OriginatorPublicKey.DecodeL | cms/src/CCMSOriginatorPublicKey.cpp:138-180 | computes the decoding function; a failure keeps the old key |
| CmsOriginatorIdentifierOrKey.OriginatorRoundTrip | cms/src/CCMSOriginatorIdentifierOrKey.cpp:152-420 | all three alternatives are read back, told apart by tag and class |
| CmsOriginatorIdentifierOrKey.OriginatorIdentifierOrKey.DeleteOldValueAndChangeTypeL | cms/src/CCMSOriginatorIdentifierOrKey.cpp:365-394 | never leaves with KErrCorrupt; clears the stored alternative and changes the type |
| CmsOriginatorIdentifierOrKey.OriginatorIdentifierOrKey.SetIssuerAndSerialNumberL | cms/src/CCMSOriginatorIdentifierOrKey.cpp:321-332 | type and stored alternative agree; safe when the argument is the stored value |
| CmsOriginatorIdentifierOrKey.OriginatorIdentifierOrKey.SetSubjectKeyIdentifierL | cms/src/CCMSOriginatorIdentifierOrKey.cpp:338-345 | type and stored alternative agree; safe when the argument is the stored value |
| CmsOriginatorIdentifierOrKey.OriginatorIdentifierOrKey.SetOriginatorKeyL | cms/src/CCMSOriginatorIdentifierOrKey.cpp:351-359 | type and stored alternative agree; safe when the argument is the stored value |
| CmsOriginatorIdentifierOrKey.OriginatorIdentifierOrKey.IssuerAndSerialNumberL | cms/src/CCMSOriginatorIdentifierOrKey.cpp:277-285 | the stored value, or KErrNotFound exactly when another alternative is stored |
| CmsOriginatorIdentifierOrKey.OriginatorIdentifierOrKey.SubjectKeyIdentifierL | cms/src/CCMSOriginatorIdentifierOrKey.cpp:291-299 | the stored value, or KErrNotFound exactly when another alternative is stored |
| CmsOriginatorIdentifierOrKey.OriginatorIdentifierOrKey.OriginatorKeyL | cms/src/CCMSOriginatorIdentifierOrKey.cpp:305-313 | the stored value, or KErrNotFound exactly when another alternative is stored |
| CmsOriginatorIdentifierOrKey.OriginatorIdentifierOrKey.DecodeL | cms/src/CCMSOriginatorIdentifierOrKey.cpp:152-212 | exactly one alternative stays stored; a failure keeps the old one |
| CmsOriginatorIdentifierOrKey.OriginatorIdentifierOrKey.EncoderLC | cms/src/CCMSOriginatorIdentifierOrKey.cpp:239-261 | computes the encoding function, never KErrCorrupt |
| CmsRecipientInfo.KeyTransLayout | cms/src/CCMSKeyTransRecipientInfo.cpp:249-286 | identifier octets and order of the fields; the key identifier under an EXPLICIT tag |
| CmsRecipientInfo.KeyTransRoundTrip | cms/src/CCMSKeyTransRecipientInfo.cpp:177-286 | read back exactly when the version goes with the stored identifier |
| CmsRecipientInfo.KeyTransRecipientInfo.SetIssuerAndSerialNumberL | cms/src/CCMSKeyTransRecipientInfo.cpp:344-355 | one identifier is stored and the version agrees; safe when the argument is the stored value |
| CmsRecipientInfo.KeyTransRecipientInfo.SetSubjectKeyIdentifierL | cms/src/CCMSKeyTransRecipientInfo.cpp:362-371 | one identifier is stored and the version agrees; safe when the argument is the stored value |
| CmsRecipientInfo.KeyTransRecipientInfo.DecodeL | cms/src/CCMSKeyTransRecipientInfo.cpp:177-242 | a success establishes the CHOICE, a failure leaves every field unchanged |
| CmsRecipientInfo.KeyTransRecipientInfo.DecodeIdentifierL | cms/src/CCMSKeyTransRecipientInfo.cpp:189-217 | the alternative that the version asks for, in a new object, and no other |
| CmsRecipientInfo.KeyTransRecipientInfo.EncoderLC | cms/src/CCMSKeyTransRecipientInfo.cpp:249-286 | computes the encoding function |
| CmsRecipientInfo.KekRoundTrip | cms/src/CCMSKEKRecipientInfo.cpp:122-215 | read back under a SEQUENCE and under the IMPLICIT tag [2] |
| CmsRecipientInfo.KekRecipientInfo.DecodeL | cms/src/CCMSKEKRecipientInfo.cpp:122-172 | a failure leaves every field unchanged |
| CmsKeyAgreeRecipientInfo.KeyAgreeLayout | cms/src/CCMSKeyAgreeRecipientInfo.cpp:299-343 | identifier octets and order of the fields, and that of the originator inside its EXPLICIT tag |
| CmsKeyAgreeRecipientInfo.KeyAgreeRoundTrip | cms/src/CCMSKeyAgreeRecipientInfo.cpp:182-354 | with and without keying material and with any number of keys, read back under a SEQUENCE and under the IMPLICIT tag [1] |
| CmsKeyAgreeRecipientInfo.KeyAgreeRecipientInfo.DecodeL | cms/src/CCMSKeyAgreeRecipientInfo.cpp:182-292 | the cursor stays within the items; a failure leaves every field unchanged |
| CmsKeyAgreeRecipientInfo.KeyAgreeRecipientInfo.EncoderLC | cms/src/CCMSKeyAgreeRecipientInfo.cpp:299-343 | computes the encoding function |
| CmsKeyAgreeRecipientInfo.KeyAgreeRecipientInfo.SetOriginatorL | cms/src/CCMSKeyAgreeRecipientInfo.cpp:390-421 | an equal new object, whichever alternative is stored, also from the one already owned |
| CmsKeyAgreeRecipientInfo.KeyAgreeRecipientInfo.SetRecipientEncryptedKeysL | cms/src/CCMSKeyAgreeRecipientInfo.cpp:427-469 | the deep copy is equal key by key, none included |
| CmsAuthenticatedData.RecipientTags | cms/src/CCMSAuthenticatedData.cpp:320-325 | section 6.2 of RFC 2630: the three kinds of recipients have three different tags |
| CmsAuthenticatedData.RecipientRoundTrip | cms/src/CCMSAuthenticatedData.cpp:198-229 | each kind is found by its tag alone and read back exactly when a key transport has the version of its identifier |
| CmsAuthenticatedData.RecipientsRoundTrip | cms/src/CCMSAuthenticatedData.cpp:192-230 | any mix is read back in order exactly when there is a recipient and each is readable; the thread ends exactly when there is none |
| CmsAuthenticatedData.RecipientsPanicExact | cms/src/CCMSAuthenticatedData.cpp:192-230 | which octets end the thread: those of a set without members, and nothing else, whatever is in it |
| CmsAuthenticatedData.AuthenticatedDataLayout | cms/src/CCMSAuthenticatedData.cpp:300-385 | section 9.1 of RFC 2630, except for the tag of the digest algorithm, which is EXPLICIT: identifier octets and order of the fields for all combinations of the optional ones, and what is inside that tag |
| CmsAuthenticatedData.FieldsInPlace | cms/src/CCMSAuthenticatedData.cpp:300-385 | at which position each field is written, for all sixteen combinations |
| CmsAuthenticatedData.AuthHeadRoundTrip | cms/src/CCMSAuthenticatedData.cpp:177-243 | the fields before the content info are read back, and the cursor is then on it |
| CmsAuthenticatedData.AuthTailRoundTrip | cms/src/CCMSAuthenticatedData.cpp:245-284 | the fields from the content info on are read back exactly when no attribute list is present but empty and every attribute has values |
| CmsAuthenticatedData.AuthenticatedDataRoundTrip | cms/src/CCMSAuthenticatedData.cpp:163-385 | all sixteen combinations of the optional fields with any mix of recipients are read back equal at every nesting level, opaque values in written form, exactly when there is a recipient, no list is present but empty and each nested part is readable |
| CmsThreadEnds.AuthenticatedDataPanicExact | cms/src/CCMSAuthenticatedData.cpp:163-291 | which octets end the thread when they are decoded as authenticated-data, for everything nested in it: the originator info, no recipients, or behind what can be read before them the attributes of either list; and nothing else |
| CmsAuthenticatedData.AuthenticatedData.DecodeL | cms/src/CCMSAuthenticatedData.cpp:163-291 | a failure at any depth leaves the object unchanged |
| CmsAuthenticatedData.AuthenticatedData.DecodeHeadL | cms/src/CCMSAuthenticatedData.cpp:168-243 | five items cover every access of the cursor up to the content info |
| CmsAuthenticatedData.AuthenticatedData.DecodeTailL | cms/src/CCMSAuthenticatedData.cpp:245-284 | every access of the cursor from the content info on is checked first |
| CmsAuthenticatedData.AuthenticatedData.EncoderLC | cms/src/CCMSAuthenticatedData.cpp:300-385 | computes the encoding function |
| CmsAuthenticatedData.AuthenticatedData.SetRecipientInfosL | cms/src/CCMSAuthenticatedData.cpp:498-512 | an empty list is refused and changes nothing |
| CmsAuthenticatedStability.AuthenticatedDataStable | cms/src/CCMSAuthenticatedData.cpp:163-385 | encoding a decoded authenticated-data reproduces its octets exactly when no algorithm identifier in it, at any depth, had been left without parameters |
| CmsAuthenticatedStability.RecipientStable | cms/src/CCMSAuthenticatedData.cpp:198-229 | the same for each kind of recipient, an originator key included |
| CmsAuthenticatedStability.OriginatorInfoStable | cms/src/CCMSOriginatorInfo.cpp:78-293 | the same for the certificates and revocation lists of the originator |
| CmsWrittenForm.AuthenticatedDataUnchanged | cms/src/CCMSAuthenticatedData.cpp:163-385 | an authenticated-data is in its written form exactly when each opaque encoding in it is |
| CmsWrittenForm.AuthenticatedDataReadBack | cms/src/CCMSAuthenticatedData.cpp:163-385 | what is readable is read back unchanged, octet by octet, exactly when it is in its written form |
| CmsReceived.DecodedAuthenticatedData | cms/src/CCMSAuthenticatedData.cpp:163-291 | whatever octets are accepted, what is decoded from them meets the exact condition for being read back |
| CmsReceived.AuthAcceptedAgain | cms/src/CCMSAuthenticatedData.cpp:163-385 | encoding what was decoded from any accepted octets gives octets that are accepted again, as the same authenticated-data in written form |
| CmsReceived.AuthReproducedExact | cms/src/CCMSAuthenticatedData.cpp:163-385 | accepted octets are reproduced exactly when they are what the encoder writes for some readable authenticated-data in which no algorithm identifier is without parameters |
| CertificateMover.RanSound | cpsecplugins/cpadvancedsecplugin/src/advsecsettingscertmover_symbian.cpp:189-254 | every step, failing or not, keeps: active exactly in the states that wait, a move has a client, indices are within bounds |
| CertificateMover.MovedSound | cpsecplugins/cpadvancedsecplugin/src/advsecsettingscertmover_symbian.cpp:88-124 | a call is either answered at once and changes nothing, or stored |
| CertificateMover.CancelledSound | cpsecplugins/cpadvancedsecplugin/src/advsecsettingscertmover_symbian.cpp:130-183 | after a Cancel nothing is outstanding, and the client of an outstanding request has been answered |
| CertificateMover.CertMover.Move | cpsecplugins/cpadvancedsecplugin/src/advsecsettingscertmover_symbian.cpp:88-124 | computes the step and completes the caller or stores its status |
| CertificateMover.CertMover.RunL | cpsecplugins/cpadvancedsecplugin/src/advsecsettingscertmover_symbian.cpp:189-254 | computes the step for every state, index and error; the stored client is completed at most once |
| CertificateMover.CertMover.RunError | cpsecplugins/cpadvancedsecplugin/src/advsecsettingscertmover_symbian.cpp:240-254 | answers the client; EFailed from the initialising states, EIdle from all others |
| CertificateMover.CertMover.ExportOneKeyL | cpsecplugins/cpadvancedsecplugin/src/advsecsettingscertmover_symbian.cpp:416-428 | the next key, or the certificates after the last one |
| CertificateMover.CertMover.RetrieveOneCertL | cpsecplugins/cpadvancedsecplugin/src/advsecsettingscertmover_symbian.cpp:525-539 | the next certificate, or KErrNone to the client after the last one |
| CertificateMover.CertMover.Cancel | cpsecplugins/cpadvancedsecplugin/src/advsecsettingscertmover_symbian.cpp:130-183 | computes the step; the stored client is completed with KErrCancel exactly when a request is outstanding |
| MoverRuns.ChangeKeeps | cpsecplugins/cpadvancedsecplugin/src/advsecsettingscertmover_symbian.cpp:416-577 | no request, whether it succeeds, fails or is cancelled, loses a key, nor a certificate while iDataPtr has its buffer: what is about to be deleted has been imported or added |
| MoverRuns.GuardedAfterCompletion | cpsecplugins/cpadvancedsecplugin/src/advsecsettingscertmover_symbian.cpp:445-489 | deleting is only reached after the import of the exported key has succeeded, with the handle saved before the import may overwrite the key info |
| MoverRuns.PtrStep | cpsecplugins/cpadvancedsecplugin/src/advsecsettingscertmover_symbian.cpp:277-278 | only an export that puts a new buffer in its place takes the buffer from iDataPtr |
| MoverRuns.ExchangeStep | cpsecplugins/cpadvancedsecplugin/src/advsecsettingscertmover_symbian.cpp:525-577 | each step keeps what the stores hold at each index of the certificates: those before it removed from the source and their copies, and nothing else, added to the target |
| MoverRuns.NothingIsLost | cpsecplugins/cpadvancedsecplugin/src/advsecsettingscertmover_symbian.cpp:189-577 | at every moment of every run each key that was in the source is in the source or in the target, and the target loses nothing; the same for certificates in exactly the runs that never remove one while iDataPtr has lost a buffer that holds something else and the target did not have it before the move; so in every run in which no export replaced the buffer |
| MoverRuns.EveryCallAnsweredOnce | cpsecplugins/cpadvancedsecplugin/src/advsecsettingscertmover_symbian.cpp:88-254 | in every run each call has been answered exactly once but for the stored one, which has a request outstanding unless initialisation was cancelled |
| MoverRuns.PendingMeansActive | cpsecplugins/cpadvancedsecplugin/src/advsecsettingscertmover_symbian.cpp:88-254 | a waiting client has a request outstanding in exactly the runs in which no call of Move follows a Cancel taken while initialising |
| MoverRuns.NotInitializedOnlyByCancel | cpsecplugins/cpadvancedsecplugin/src/advsecsettingscertmover_symbian.cpp:130-183 | the state without a way out is entered exactly by a Cancel while initialising |
| MoverRuns.CancelledInitializationHangs | cpsecplugins/cpadvancedsecplugin/src/advsecsettingscertmover_symbian.cpp:94-112 | a call accepted after such a Cancel is never answered, whatever happens next |
| MoverRuns.CallAfterCancelHangs | cpsecplugins/cpadvancedsecplugin/src/advsecsettingscertmover_symbian.cpp:94-183 | two events lead there from any new mover, and the call is never answered, whatever happens next |
| MoverRuns.ProgressStep | cpsecplugins/cpadvancedsecplugin/src/advsecsettingscertmover_symbian.cpp:383-577 | each step keeps what has been moved and the number of requests that took |
| MoverRuns.MovesCountAndSucceed | cpsecplugins/cpadvancedsecplugin/src/advsecsettingscertmover_symbian.cpp:189-577 | a move in progress has used fewer requests than its lists allow, and every completion counts; KErrNone is answered only when every listed key has been moved, the source has lost exactly the listed certificates, the target has its old certificates and besides them exactly the listed ones, or the object of a buffer that iDataPtr has lost, after exactly two requests and three for each of them |
| MoverRuns.SuccessKeepsExact | cpsecplugins/cpadvancedsecplugin/src/advsecsettingscertmover_symbian.cpp:416-577 | when KErrNone is answered, a listed certificate is in the target exactly when iDataPtr has its buffer, the target had it before, or the buffer holds it; the move has lost no certificate exactly when that is so for each; and what a lost buffer holds is the last key that was moved |
| MoverRuns.CertificateIsLost | cpsecplugins/cpadvancedsecplugin/src/advsecsettingscertmover_symbian.cpp:416-563 | a run that meets neither condition: everything succeeds, the target gets the key as a certificate, and the certificate is gone |
| MoverRuns.MeasureDecreases | cpsecplugins/cpadvancedsecplugin/src/advsecsettingscertmover_symbian.cpp:189-577 | every completion that does not end a move decreases the pair of its part and the requests that part still takes; a further call changes nothing and a Cancel ends the move |
| MoverRuns.EveryMoveEnds | cpsecplugins/cpadvancedsecplugin/src/advsecsettingscertmover_symbian.cpp:189-577 | in every run, a move that has begun is over before two requests and three for each listed key and certificate have been completed, and its client is then answered, with KErrNone only as above |
| MoverRuns.EndsOnceListed | cpsecplugins/cpadvancedsecplugin/src/advsecsettingscertmover_symbian.cpp:189-577 | the same for the limit known from the two lists alone, which no later request moves |
| LabeledCertInfo.LabelShows | cpsecplugins/cpadvancedsecplugin/src/advsecsettingscertlistbuilder_symbian.cpp:251-286 | a label starts with the one of the store, followed by the primary or else the secondary name, only for retrieved certificates |
| LabeledCertInfo.CompareTotal | cpsecplugins/cpadvancedsecplugin/src/advsecsettingslabeledcertinfo_symbian.cpp:97-101 | any two labels are comparable |
| LabeledCertInfo.CompareTransitive | cpsecplugins/cpadvancedsecplugin/src/advsecsettingslabeledcertinfo_symbian.cpp:97-101 | the comparison of labels is transitive |
| LabeledCertInfo.SortedByLabel | cpsecplugins/cpadvancedsecplugin/src/advsecsettingscertlistbuilder_symbian.cpp:294-295 | a sorted permutation |
| CertListBuilder.CertListBuilder.GetCertificateList | cpsecplugins/cpadvancedsecplugin/src/advsecsettingscertlistbuilder_symbian.cpp:69-89 | starts a run for the caller with what earlier runs left behind, or answers KErrInUse and changes nothing |
| CertListBuilder.CertListBuilder.RunL | cpsecplugins/cpadvancedsecplugin/src/advsecsettingscertlistbuilder_symbian.cpp:119-148 | computes the step, answers the client exactly when the run ends; a success returns the listed certificates sorted by label and besides them what failed runs left over, so exactly the listed ones with their right labels if and only if no entries were left over and no certificate with a name was taken for that of a first entry; a certificate at hand that cannot be parsed fails the run and stays, and so do the entries |
| CertListBuilder.CertListBuilder.CompleteProcessingCertificateL | cpsecplugins/cpadvancedsecplugin/src/advsecsettingscertlistbuilder_symbian.cpp:251-286 | the current entry gets its label from the certificate at hand, whichever it is; one that cannot be parsed makes it leave and change nothing |
| CertListBuilder.LeftoverMislabels | cpsecplugins/cpadvancedsecplugin/src/advsecsettingscertlistbuilder_symbian.cpp:251-286 | an entry that needs no certificate, given a left over one, gets its right label exactly when that one has no name, a wrong one exactly when it has one, and fails the run exactly when it cannot be parsed, as the empty buffer cannot |
| CertListBuilder.RunLabelsRight | cpsecplugins/cpadvancedsecplugin/src/advsecsettingscertlistbuilder_symbian.cpp:211-286 | the labels of a run are right exactly when that of its first entry is; all others always are |
| CertListBuilder.CertListBuilder.StartProcessingCertificateL | cpsecplugins/cpadvancedsecplugin/src/advsecsettingscertlistbuilder_symbian.cpp:211-245 | the next certificate, or the sorted list and KErrNone after the last one |
| CertListBuilder.CertListBuilder.ReturnCertificateListL | cpsecplugins/cpadvancedsecplugin/src/advsecsettingscertlistbuilder_symbian.cpp:292-312 | both client arrays describe the same sorted permutation, position i under model index i |
| CertListBuilder.CertListBuilder.Cancel | cpsecplugins/cpadvancedsecplugin/src/advsecsettingscertlistbuilder_symbian.cpp:95-113 | answers the client of a run that is on, and nobody otherwise |
| CertListBuilder.OnlyListedIffNothingStale | cpsecplugins/cpadvancedsecplugin/src/advsecsettingscertlistbuilder_symbian.cpp:292-312 | the client gets exactly the listed certificates if and only if no failed run left entries behind |
| CertListBuilder.RightListIff | cpsecplugins/cpadvancedsecplugin/src/advsecsettingscertlistbuilder_symbian.cpp:292-312 | the client gets the listed certificates with their right labels and nothing else exactly when no entries were left over and the first entry needs its own certificate or was not given one with a name |
| CertListRuns.ListRunExact | cpsecplugins/cpadvancedsecplugin/src/advsecsettingscertlistbuilder_symbian.cpp:69-312 | a whole run from any idle builder: with certificates that can all be parsed it returns the left over and the listed entries and leaves none behind; otherwise it fails at the first one that cannot, with its code, and leaves what it had labelled and that certificate |
| CertListRuns.NextRunExact | cpsecplugins/cpadvancedsecplugin/src/advsecsettingscertlistbuilder_symbian.cpp:69-312 | by what was left over and the first listed entry alone, the store having good certificates: the next run fails exactly when that entry needs no certificate and one that cannot be parsed was left over, and then changes nothing; it otherwise returns exactly the right list if and only if no entries were left over and no certificate with a name was taken for that of the first entry |
| CertListRuns.PoisonedFails | cpsecplugins/cpadvancedsecplugin/src/advsecsettingscertlistbuilder_symbian.cpp:95-286 | with such a certificate every later run that lists something fails, through any calls, completions, errors and Cancels, as long as no listing starts with an authority certificate, and it is never got rid of |
| CertListRuns.FailedRetrievalPoisons | cpsecplugins/cpadvancedsecplugin/src/advsecsettingscertlistbuilder_symbian.cpp:211-286 | one retrieval that is cancelled, or that fails with nothing written, is enough on a new builder: the empty buffer made for it stays, and all later runs that list something fail as above |
| CertListRuns.AuthorityFirstRecovers | cpsecplugins/cpadvancedsecplugin/src/advsecsettingscertlistbuilder_symbian.cpp:211-245 | the first successful listing that starts with an authority certificate ends it |
| CertificateModel.ListedCertsAreFound | cpsecplugins/cpadvancedsecplugin/src/advsecsettingscertificatemodel_symbian_p.cpp:530-538 | looking a listed certificate up gives exactly the store entry its type and label were taken from |
| CertificateModel.CertificateModelPrivate.Initialize | cpsecplugins/cpadvancedsecplugin/src/advsecsettingscertificatemodel_symbian_p.cpp:116-126 | starts initialising, or reports exactly one error |
| CertificateModel.CertificateModelPrivate.GetCertificates | cpsecplugins/cpadvancedsecplugin/src/advsecsettingscertificatemodel_symbian_p.cpp:132-146 | starts a list, or reports exactly one error |
| CertificateModel.CertificateModelPrivate.StoreRequest | cpsecplugins/cpadvancedsecplugin/src/advsecsettingscertificatemodel_symbian_p.cpp:152-252 | starts the request on a certificate that exists, reports exactly one error when busy, and ignores an unknown index |
| CertificateModel.CertificateModelPrivate.MoveRequest | cpsecplugins/cpadvancedsecplugin/src/advsecsettingscertificatemodel_symbian_p.cpp:269-312 | starts the move of a certificate that exists, reports exactly one error when busy, and ignores an unknown index |
| CertificateModel.CertificateModelPrivate.BuilderRuns | cpsecplugins/cpadvancedsecplugin/src/advsecsettingscertificatemodel_symbian_p.cpp:132-146 | the status is completed exactly when the builder is done, and the arrays are then the ones it described |
| CertificateModel.CertificateModelPrivate.MoverRuns | cpsecplugins/cpadvancedsecplugin/src/advsecsettingscertificatemodel_symbian_p.cpp:269-312 | the status is completed with what the mover answers |
| CertificateModel.CertificateModelPrivate.RunL | cpsecplugins/cpadvancedsecplugin/src/advsecsettingscertificatemodel_symbian_p.cpp:361-418 | exactly one callback for the request that was on, and idle, or not initialised after a failed initialisation |
| CertificateModel.CertificateModelPrivate.Cancel | cpsecplugins/cpadvancedsecplugin/src/advsecsettingscertificatemodel_symbian_p.cpp:318-355 | from any state the outstanding status is completed exactly once, also by deleting the list builder or the mover, and one KErrCancel is reported |
| CertificateModel.CertificateModelPrivate.DeleteBuilder | cpsecplugins/cpadvancedsecplugin/src/advsecsettingscertificatemodel_symbian_p.cpp:324-327 | deleting the list builder answers the model unless that has already happened |
| CertificateModel.CertificateModelPrivate.DeleteMover | cpsecplugins/cpadvancedsecplugin/src/advsecsettingscertificatemodel_symbian_p.cpp:341-345 | deleting the mover at any step answers the model unless that has already happened |

## Left out

- Ownership and aliasing of sub-objects, reference counts, the cleanup stack and leaks: parts
  are values, except where a setter may be given the object's own current value
  (`HeapCells`). Setters copy or take ownership, and getters return constant
  references, so parts are not shared.
- Memory exhaustion: leaves that only an allocation can cause are modelled in the mover and
  in the requests of the model, not in the codec and not inside the list builder.
- Microseconds of times, leap seconds, days per month, and the text form of object
  identifiers.
- `CCMSContentInfo`, `CX509AlgorithmIdentifier` and the other library classes, their
  constructors from library objects, and the structure of distinguished names.
- `CCMSKEKRecipientInfo::SetKekidL`, which takes the date from the new object.
- CertificateModel.CertificateModelPrivate.StoreRequest: the trust settings and the details that these requests
  read and write are not modelled, only the protocol.
- MoverRuns.NothingIsLost: keys and certificates are identities, not octets, and other clients of the stores are not
  modelled.
- The search for source and target stores in the mover is one outcome, found or not.
- Handlers of the model's callbacks that call the model again while it is being cancelled.
- The details builder, which the model drives like a store request; views, plugin loaders,
  stub models, translation, logging, the boot-time server, the security module eraser.
