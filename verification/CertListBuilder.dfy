/** CAdvSecSettingsCertListBuilder: the active object that lists the certificates of the
    store, labels them one by one, and returns them sorted by label. */
module CertListBuilder {
  import opened Outcomes
  import opened ActiveObjects
  import opened LabeledCertInfo

  datatype BuilderState = EIdle | EListingCerts | ERetrievingCert | EProcessingCert

  datatype CertificateType =
    | NotDefined
    | AuthorityCertificate
    | DeviceCertificate
    | PersonalCertificate
    | TrustedSiteCertificate

  /** AdvSecSettingsCertificate */
  datatype ListedCert = ListedCert(modelIndex: nat, certType: CertificateType, text: string)

  const DEVICE_CERT_STORE: nat := 0x101FB668

  /** The buffer for a certificate, before it has been retrieved. */
  const EMPTY_BUFFER: Subject := Unparsable(0)

  function CertType(entry: StoreEntry): CertificateType {
    match entry.owner
    case CaCertificate => AuthorityCertificate
    case UserCertificate => if entry.storeType == DEVICE_CERT_STORE then DeviceCertificate else PersonalCertificate
    case PeerCertificate => TrustedSiteCertificate
    case OtherCertificate => NotDefined
  }

  /** The label an entry has when its own certificate, where it needs one, is used. */
  function LabelAll(entries: seq<StoreEntry>, store: nat -> Subject): (r: seq<Labeled>)
    ensures |r| == |entries|
  {
    seq(|entries|, i requires 0 <= i < |entries| => LabelFor(entries[i], store(entries[i].handle)))
  }

  // ---------------------------------------------------------- processing an entry

  /** The codes the certificate parser leaves with are negative. */
  function LeaveCodeOf(code: nat): (r: int)
    ensures r < 0
  {
    -1 - code
  }

  /** What CompleteProcessingCertificateL makes of an entry: a label, or a leave. */
  datatype Processed = Labels(labeled: Labeled) | Leaves(code: int)

  /** The label from the certificate at hand, whichever it is. */
  function LabeledWith(entry: StoreEntry, certificate: Option<Subject>): Labeled {
    Labeled(entry, if certificate.Some? then SubjectLabel(entry.text, certificate.value) else entry.text)
  }

  predicate Unparsed(certificate: Option<Subject>) {
    certificate.Some? && certificate.value.Unparsable?
  }

  /** A certificate that cannot be parsed makes the run leave, also when the entry does not
      need one. */
  function ProcessedWith(entry: StoreEntry, certificate: Option<Subject>): Processed {
    if Unparsed(certificate) then Leaves(LeaveCodeOf(certificate.value.code))
    else Labels(LabeledWith(entry, certificate))
  }

  predicate HasNoName(s: Subject) {
    s.Unnamed? || (s.Named? && s.primary == "" && s.secondary == "")
  }

  /** A certificate that was left over gives an entry that needs none its right label exactly
      when it has no name, a wrong one exactly when it has one, and makes the run leave exactly
      when it cannot be parsed, as the empty buffer cannot. */
  lemma LeftoverMislabels(entry: StoreEntry, own: Subject, leftover: Subject)
    requires !NeedsSubject(entry)
    ensures var processed := ProcessedWith(entry, Some(leftover));
      && (processed == Labels(LabelFor(entry, own)) <==> HasNoName(leftover))
      && (processed.Labels? && processed.labeled != LabelFor(entry, own) <==> leftover.Named? && !HasNoName(leftover))
      && (processed.Leaves? <==> leftover.Unparsable?)
    ensures ProcessedWith(entry, Some(EMPTY_BUFFER)).Leaves?
  {
    if leftover.Named? {
      var more := if leftover.primary != "" then leftover.primary else leftover.secondary;
      assert more != "" ==> |Appended(entry.text, NAME_SEPARATOR, more)| > |entry.text|;
    }
  }

  // ------------------------------------------------------------ processing a list

  /** The certificate at hand for entry i: its own where it needs one; for the first entry
      otherwise what an earlier run has left over, and for the others none. */
  function CertificateFor(entries: seq<StoreEntry>, i: nat, store: nat -> Subject, leftover: Option<Subject>)
    : Option<Subject>
    requires i < |entries|
  {
    if NeedsSubject(entries[i]) then Some(store(entries[i].handle)) else if i == 0 then leftover else None
  }

  /** The labels a run gives. */
  function RunLabels(entries: seq<StoreEntry>, store: nat -> Subject, leftover: Option<Subject>): (r: seq<Labeled>)
    ensures |r| == |entries|
  {
    seq(|entries|, i requires 0 <= i < |entries| =>
      LabeledWith(entries[i], CertificateFor(entries, i, store, leftover)))
  }

  /** The first n entries can be processed. */
  predicate ParsedTo(entries: seq<StoreEntry>, n: nat, store: nat -> Subject, leftover: Option<Subject>)
    requires n <= |entries|
  {
    forall i :: 0 <= i < n ==> !Unparsed(CertificateFor(entries, i, store, leftover))
  }

  /** The first entry gets its right label. */
  predicate StartsRightly(entries: seq<StoreEntry>, leftover: Option<Subject>) {
    entries == [] || NeedsSubject(entries[0]) || leftover.None? || HasNoName(leftover.value)
  }

  lemma FirstLabel(entry: StoreEntry, own: Subject, leftover: Option<Subject>)
    requires !NeedsSubject(entry) ==> !Unparsed(leftover)
    ensures LabeledWith(entry, if NeedsSubject(entry) then Some(own) else leftover) == LabelFor(entry, own)
      <==> NeedsSubject(entry) || leftover.None? || HasNoName(leftover.value)
  {
    if !NeedsSubject(entry) && leftover.Some? {
      LeftoverMislabels(entry, own, leftover.value);
    }
  }

  /** All labels of a run are right exactly when that of its first entry is. */
  lemma RunLabelsRight(entries: seq<StoreEntry>, store: nat -> Subject, leftover: Option<Subject>)
    requires ParsedTo(entries, |entries|, store, leftover)
    ensures RunLabels(entries, store, leftover) == LabelAll(entries, store) <==> StartsRightly(entries, leftover)
    ensures entries != [] ==> RunLabels(entries, store, leftover)[1..] == LabelAll(entries, store)[1..]
  {
    hide SubjectLabel;
    var labels, right := RunLabels(entries, store, leftover), LabelAll(entries, store);
    forall i | 0 < i < |entries| ensures labels[i] == right[i] {
      assert !Unparsed(CertificateFor(entries, i, store, leftover));
    }
    if entries != [] {
      assert !Unparsed(CertificateFor(entries, 0, store, leftover));
      FirstLabel(entries[0], store(entries[0].handle), leftover);
      assert labels == [labels[0]] + labels[1..] && right == [right[0]] + right[1..];
    }
  }

  function Entries(s: seq<Labeled>): (r: seq<StoreEntry>)
    ensures |r| == |s|
  {
    seq(|s|, i requires 0 <= i < |s| => s[i].entry)
  }

  /** The two arrays handed to the client describe s, position by position. */
  predicate Describes(certList: seq<ListedCert>, infos: seq<StoreEntry>, s: seq<Labeled>) {
    && |certList| == |s| && infos == Entries(s)
    && forall i :: 0 <= i < |s| ==> certList[i] == ListedCert(i, CertType(s[i].entry), s[i].text)
  }

  // ------------------------------------------------- what the methods compute

  /** The builder without its client: entries are those that are being processed, certificate
      is iCertificate, labeled what has been labelled, by failed runs as well. */
  datatype Builder = Builder(state: BuilderState, entries: seq<StoreEntry>, index: nat, certificate: Option<Subject>,
    labeled: seq<Labeled>)

  /** The builder after a step, the code its client is answered with, and what the client gets. */
  datatype Reply = Reply(builder: Builder, answer: Option<int>, returned: Option<seq<Labeled>>)

  predicate Sound(b: Builder) {
    && (b.state == ERetrievingCert || b.state == EProcessingCert ==> b.index < |b.entries|)
    && (b.state == ERetrievingCert ==> NeedsSubject(b.entries[b.index]))
    && (b.state == EProcessingCert ==> !NeedsSubject(b.entries[b.index]))
  }

  /** GetCertificateList on an idle builder. */
  function Started(b: Builder): Builder {
    b.(state := EListingCerts, entries := [])
  }

  /** StartProcessingCertificateL at the index of b. */
  function StartedOn(b: Builder): (r: Reply)
    requires b.index <= |b.entries|
    ensures Sound(r.builder) && r.answer == if r.builder.state == EIdle then Some(KERR_NONE) else None
  {
    if b.index < |b.entries| then
      if NeedsSubject(b.entries[b.index]) then
        Reply(b.(state := ERetrievingCert, certificate := Some(EMPTY_BUFFER)), None, None)
      else Reply(b.(state := EProcessingCert), None, None)
    else Reply(b.(state := EIdle, entries := [], labeled := []), Some(KERR_NONE), Some(SortedByLabel(b.labeled)))
  }

  function Failed(b: Builder, code: int): Reply {
    Reply(b.(state := EIdle), Some(code), None)
  }

  /** ProcessNextCertificateL with a certificate at hand or none. */
  function ProcessedOne(b: Builder): (r: Reply)
    requires b.index < |b.entries|
    ensures Sound(r.builder) && (r.answer.Some? <==> r.builder.state == EIdle)
    ensures !Unparsed(b.certificate) && r.answer.Some? ==> r.answer == Some(KERR_NONE)
  {
    match ProcessedWith(b.entries[b.index], b.certificate)
    case Leaves(code) => Failed(b, code)
    case Labels(labeled) => StartedOn(b.(labeled := b.labeled + [labeled], certificate := None, index := b.index + 1))
  }

  /** RunL and, when it leaves, RunError. The listing brings listed, a retrieval what the
      store has, and one that fails some leftover. */
  function Ran(b: Builder, store: nat -> Subject, status: int, listed: seq<StoreEntry>, leftover: Subject): (r: Reply)
    requires Sound(b) && b.state != EIdle
    ensures Sound(r.builder) && (r.answer.Some? <==> r.builder.state == EIdle)
  {
    if status < 0 then Failed(if b.state == ERetrievingCert then b.(certificate := Some(leftover)) else b, status)
    else match b.state
      case EListingCerts => StartedOn(b.(entries := listed, index := 0))
      case ERetrievingCert => ProcessedOne(b.(certificate := Some(store(b.entries[b.index].handle))))
      case EProcessingCert => ProcessedOne(b)
  }

  /** DoCancel leaves everything but the state as it is. */
  function Cancelled(b: Builder): Builder {
    b.(state := EIdle)
  }

  // ------------------------------------------------------------------ objects

  class CertListBuilder {
    const iCertStore: nat -> Subject
    var iState: BuilderState
    var iActive: bool
    var iClientStatus: RequestStatus?
    var iCertInfoArray: seq<StoreEntry>
    var iCertInfoIndex: nat
    var iCertificate: Option<Subject>
    var iLabeledCertInfos: seq<Labeled>
    var iCertList: seq<ListedCert>
    var iClientInfoArray: seq<StoreEntry>

    /** What earlier runs had left behind when the current one was started. */
    ghost var iStale: seq<Labeled>
    ghost var iLeftover: Option<Subject>

    /** What the last successful run returned, in order. */
    ghost var iReturned: seq<Labeled>

    function Value(): Builder
      reads this
    {
      Builder(iState, iCertInfoArray, iCertInfoIndex, iCertificate, iLabeledCertInfos)
    }

    /** Active exactly while a run is on, which has a client that waits; the entries
        labelled so far are those the run was started with and, with the labels of this run,
        those of the certificates before the index. */
    ghost predicate Valid()
      reads this, iClientStatus
    {
      && Sound(Value())
      && (iActive <==> iState != EIdle)
      && (iState == EIdle <==> iClientStatus == null)
      && (iClientStatus != null ==> iClientStatus.value == None)
      && (iState == EListingCerts ==> iLabeledCertInfos == iStale && iCertificate == iLeftover)
      && (iState == ERetrievingCert || iState == EProcessingCert ==> Labelling())
      && (iState == EProcessingCert ==> iCertificate == AtHand())
    }

    ghost predicate Labelling()
      requires iCertInfoIndex <= |iCertInfoArray|
      reads this
    {
      && iLabeledCertInfos == iStale + RunLabels(iCertInfoArray, iCertStore, iLeftover)[..iCertInfoIndex]
      && ParsedTo(iCertInfoArray, iCertInfoIndex, iCertStore, iLeftover)
    }

    /** The certificate for the entry at the index. */
    ghost function AtHand(): Option<Subject>
      requires iCertInfoIndex < |iCertInfoArray|
      reads this
    {
      CertificateFor(iCertInfoArray, iCertInfoIndex, iCertStore, iLeftover)
    }

    /** The client has got certificates sorted by label, position i under model index i: the
        listed ones, each once, with the labels of the run, and besides them exactly what was
        left over; so the listed ones and no others exactly when no entries were left over,
        and those with their right labels exactly when neither entries nor a certificate that
        does harm were. */
    ghost predicate Returned(listed: seq<StoreEntry>)
      reads this
    {
      && iReturned == SortedByLabel(iStale + RunLabels(listed, iCertStore, iLeftover)) && Sorted(iReturned)
      && Describes(iCertList, iClientInfoArray, iReturned)
      && multiset(iClientInfoArray) == multiset(Entries(iStale)) + multiset(listed)
      && (multiset(iClientInfoArray) == multiset(listed) <==> iStale == [])
      && (multiset(iReturned) == multiset(LabelAll(listed, iCertStore)) <==>
        iStale == [] && StartsRightly(listed, iLeftover))
    }

    lemma ActiveHasClient()
      requires Valid()
      ensures iActive <==> iClientStatus != null
      ensures iActive <==> iState != EIdle
      ensures iClientStatus != null ==> iClientStatus.value == None
    {
    }

    lemma ReturnedDescribes(listed: seq<StoreEntry>)
      requires Returned(listed)
      ensures Describes(iCertList, iClientInfoArray, iReturned)
    {
    }

    constructor (certStore: nat -> Subject)
      ensures Valid() && iCertStore == certStore && Value() == Builder(EIdle, [], 0, None, [])
    {
      iCertStore := certStore;
      iState, iActive, iClientStatus, iCertInfoArray, iCertInfoIndex := EIdle, false, null, [], 0;
      iCertificate, iLabeledCertInfos, iCertList, iClientInfoArray := None, [], [], [];
      iStale, iLeftover, iReturned := [], None, [];
    }

    /** The status is answered at once when a run is on, and otherwise by that run. */
    method GetCertificateList(status: RequestStatus)
      requires Valid() && status != iClientStatus
      modifies this, status
      ensures Valid()
      ensures old(iState) == EIdle ==> Value() == Started(old(Value())) && iClientStatus == status
      ensures old(iState) == EIdle ==> iStale == old(iLabeledCertInfos) && iLeftover == old(iCertificate)
      ensures old(iState) != EIdle ==>
        status.value == Some(KERR_IN_USE) && Value() == old(Value()) && iClientStatus == old(iClientStatus)
    {
      status.SetPending();
      if !iActive && iState == EIdle {
        iClientStatus := status;
        iCertInfoArray := [];
        iStale, iLeftover := iLabeledCertInfos, iCertificate;
        iState := EListingCerts;
        iActive := true;
      } else {
        status.Complete(KERR_IN_USE);
      }
    }

    /** One completion: of the listing, which brings the certificates, of a retrieval, which
        brings one of them, or of the request that stands in for a retrieval. The client is
        answered exactly when the run ends; a run that fails, also because of a certificate
        that cannot be parsed, returns nothing, and leaves the entries labelled so far behind
        and the certificate at hand. */
    method RunL(status: int, listed: seq<StoreEntry>, leftover: Subject)
      requires Valid() && iActive
      modifies this, iClientStatus
      ensures Valid()
      ensures Value() == Ran(old(Value()), iCertStore, status, listed, leftover).builder
      ensures old(iClientStatus).value == Ran(old(Value()), iCertStore, status, listed, leftover).answer
      ensures iClientStatus == if iState == EIdle then null else old(iClientStatus)
      ensures iState == EIdle <==> old(iClientStatus).value.Some?
      ensures iStale == old(iStale) && iLeftover == old(iLeftover)
      ensures status >= 0 && old(iState) == EProcessingCert && Unparsed(old(iCertificate)) ==>
        && old(iClientStatus).value == Some(LeaveCodeOf(old(iCertificate).value.code))
        && iCertificate == old(iCertificate) && iLabeledCertInfos == old(iLabeledCertInfos)
      ensures old(iClientStatus).value == Some(KERR_NONE) ==>
        Returned(if old(iState) == EListingCerts then listed else old(iCertInfoArray))
      ensures old(iClientStatus).value.Some? && old(iClientStatus).value != Some(KERR_NONE) ==>
        iCertList == old(iCertList) && iClientInfoArray == old(iClientInfoArray)
    {
      hide NeedsSubject, RunLabels, ParsedTo, Returned, CertificateFor, StartedOn, SortedByLabel;
      iActive := false;
      if status < 0 {
        if iState == ERetrievingCert {
          iCertificate := Some(leftover);
        }
        RunError(status);
      } else if iState == EListingCerts {
        iCertInfoArray := listed;
        ProcessFirstCertificateL();
      } else {
        if iState == ERetrievingCert {
          iCertificate := Some(iCertStore(iCertInfoArray[iCertInfoIndex].handle));
          RetrievedAtHand();
        }
        var leave := ProcessNextCertificateL();
        if leave < 0 {
          RunError(leave);
        }
      }
    }

    lemma RetrievedAtHand()
      requires iCertInfoIndex < |iCertInfoArray| && NeedsSubject(iCertInfoArray[iCertInfoIndex])
      ensures AtHand() == Some(iCertStore(iCertInfoArray[iCertInfoIndex].handle))
    {
    }

    method ProcessFirstCertificateL()
      requires iLabeledCertInfos == iStale && iCertificate == iLeftover && !iActive
      requires iClientStatus != null && iClientStatus.value == None
      modifies this`iCertInfoIndex, this`iState, this`iActive, this`iCertificate, this`iClientStatus, this`iCertList,
        this`iClientInfoArray, this`iLabeledCertInfos, this`iCertInfoArray, this`iReturned, iClientStatus
      ensures Valid()
      ensures Value() == StartedOn(old(Value()).(index := 0)).builder
      ensures old(iClientStatus).value == StartedOn(old(Value()).(index := 0)).answer
      ensures iClientStatus == if iState == EIdle then null else old(iClientStatus)
      ensures iState == EIdle ==> Returned(old(iCertInfoArray))
    {
      hide StartedOn, Returned;
      iCertInfoIndex := 0;
      NothingLabelled(iCertInfoArray, iCertStore, iLeftover);
      StartProcessingCertificateL();
    }

    /** Leaves only when the certificate at hand cannot be parsed, and has then changed nothing. */
    method ProcessNextCertificateL() returns (leave: int)
      requires iCertInfoIndex < |iCertInfoArray| && Labelling() && !iActive && iCertificate == AtHand()
      requires iClientStatus != null && iClientStatus.value == None
      modifies this`iCertInfoIndex, this`iState, this`iActive, this`iCertificate, this`iClientStatus, this`iCertList,
        this`iClientInfoArray, this`iLabeledCertInfos, this`iCertInfoArray, this`iReturned, iClientStatus
      ensures leave < 0 <==> Unparsed(old(iCertificate))
      ensures leave < 0 ==> leave == LeaveCodeOf(old(iCertificate).value.code) && unchanged(this)
      ensures leave < 0 ==> old(iClientStatus).value == None
      ensures leave >= 0 ==> Valid() && Value() == ProcessedOne(old(Value())).builder
      ensures leave >= 0 ==> old(iClientStatus).value == ProcessedOne(old(Value())).answer
      ensures leave >= 0 ==> iClientStatus == if iState == EIdle then null else old(iClientStatus)
      ensures leave >= 0 && iState == EIdle ==> Returned(old(iCertInfoArray))
    {
      hide StartedOn, Returned, RunLabels, ParsedTo, CertificateFor, LabeledWith;
      OneMoreLabel(iCertInfoArray, iCertInfoIndex, iCertStore, iLeftover);
      leave := CompleteProcessingCertificateL();
      if leave < 0 {
        return;
      }
      iCertInfoIndex := iCertInfoIndex + 1;
      StartProcessingCertificateL();
    }

    method RunError(error: int)
      requires iClientStatus != null && iClientStatus.value == None
      modifies this`iClientStatus, this`iState, iClientStatus
      ensures iState == EIdle && iClientStatus == null && old(iClientStatus).value == Some(error)
    {
      iClientStatus.Complete(error);
      iClientStatus := null;
      iState := EIdle;
    }

    /** The current certificate gets its label from the certificate at hand, whichever it is;
        one that cannot be parsed makes it leave, and changes nothing. */
    method CompleteProcessingCertificateL() returns (leave: int)
      requires iCertInfoIndex < |iCertInfoArray|
      modifies this`iLabeledCertInfos, this`iCertificate
      ensures match ProcessedWith(iCertInfoArray[iCertInfoIndex], old(iCertificate))
        case Leaves(code) =>
          leave == code && iCertificate == old(iCertificate) && iLabeledCertInfos == old(iLabeledCertInfos)
        case Labels(labeled) =>
          leave == KERR_NONE && iCertificate == None && iLabeledCertInfos == old(iLabeledCertInfos) + [labeled]
    {
      var certInfo := iCertInfoArray[iCertInfoIndex];
      var text := certInfo.text;
      if iCertificate.Some? {
        if iCertificate.value.Unparsable? {
          return LeaveCodeOf(iCertificate.value.code);
        }
        text := SubjectLabel(certInfo.text, iCertificate.value);
        iCertificate := None;
      }
      iLabeledCertInfos := iLabeledCertInfos + [Labeled(certInfo, text)];
      leave := KERR_NONE;
    }

    method StartProcessingCertificateL()
      requires iCertInfoIndex <= |iCertInfoArray| && Labelling() && !iActive
      requires iClientStatus != null && iClientStatus.value == None
      requires iCertificate == if iCertInfoIndex == 0 then iLeftover else None
      modifies this`iState, this`iActive, this`iCertificate, this`iClientStatus, this`iCertList, this`iClientInfoArray,
        this`iLabeledCertInfos, this`iCertInfoArray, this`iReturned, iClientStatus
      ensures Valid()
      ensures Value() == StartedOn(old(Value())).builder
      ensures old(iClientStatus).value == StartedOn(old(Value())).answer
      ensures iClientStatus == if iState == EIdle then null else old(iClientStatus)
      ensures iState == EIdle ==> Returned(old(iCertInfoArray))
    {
      hide NeedsSubject, SortedByLabel, Labelling, Returned, AtHand;
      if iCertInfoIndex < |iCertInfoArray| {
        StartOneL();
      } else {
        FinishL();
      }
    }

    /** The next certificate is retrieved, or its label is used as it is. */
    method StartOneL()
      requires iCertInfoIndex < |iCertInfoArray| && Labelling() && !iActive
      requires iClientStatus != null && iClientStatus.value == None
      requires iCertificate == if iCertInfoIndex == 0 then iLeftover else None
      modifies this`iState, this`iActive, this`iCertificate
      ensures Valid()
      ensures Value() == StartedOn(old(Value())).builder
    {
      hide NeedsSubject, RunLabels, ParsedTo, CertificateFor;
      if NeedsSubject(iCertInfoArray[iCertInfoIndex]) {
        iCertificate := Some(EMPTY_BUFFER);
        iState := ERetrievingCert;
      } else {
        AtHandFor(iCertInfoArray, iCertInfoIndex, iCertStore, iLeftover);
        iState := EProcessingCert;
      }
      iActive := true;
    }

    /** After the last certificate the client gets the list. */
    method FinishL()
      requires iCertInfoIndex == |iCertInfoArray| && Labelling() && !iActive
      requires iClientStatus != null && iClientStatus.value == None
      modifies this`iState, this`iClientStatus, this`iCertList, this`iClientInfoArray, this`iLabeledCertInfos,
        this`iCertInfoArray, this`iReturned, iClientStatus
      ensures iState == EIdle && iClientStatus == null && old(iClientStatus).value == Some(KERR_NONE)
      ensures iCertInfoArray == [] && iLabeledCertInfos == [] && Returned(old(iCertInfoArray))
    {
      hide LabelAll, Entries, Sorted, Describes, RunLabels, ParsedTo, StartsRightly, SortedByLabel;
      AllLabelled(iCertInfoArray, iCertStore, iLeftover);
      ReturnCertificateListL();
      iClientStatus.Complete(KERR_NONE);
      iClientStatus := null;
      iState := EIdle;
    }

    method ReturnCertificateListL()
      requires iLabeledCertInfos == iStale + RunLabels(iCertInfoArray, iCertStore, iLeftover)
      requires ParsedTo(iCertInfoArray, |iCertInfoArray|, iCertStore, iLeftover)
      modifies this`iCertList, this`iClientInfoArray, this`iLabeledCertInfos, this`iCertInfoArray, this`iReturned
      ensures Returned(old(iCertInfoArray)) && iLabeledCertInfos == [] && iCertInfoArray == []
    {
      hide Sorted, SortedByLabel, Entries, LabelAll, CertType, RunLabels, ParsedTo, StartsRightly;
      ghost var unsorted := iLabeledCertInfos;
      RunEntries(iStale, iCertInfoArray, iCertStore, iLeftover);
      iLabeledCertInfos := SortedByLabel(iLabeledCertInfos);
      EntriesPermuted(iLabeledCertInfos, unsorted);
      FillClientArrays();
      iReturned := iLabeledCertInfos;
      OnlyListedIffNothingStale(iClientInfoArray, iStale, iCertInfoArray);
      RightListIff(iStale, iCertInfoArray, iCertStore, iLeftover);
      iLabeledCertInfos := [];
      iCertInfoArray := [];
    }

    method FillClientArrays()
      modifies this`iCertList, this`iClientInfoArray
      ensures Describes(iCertList, iClientInfoArray, iLabeledCertInfos)
    {
      iCertList := [];
      iClientInfoArray := [];
      for index := 0 to |iLabeledCertInfos|
        invariant Describes(iCertList, iClientInfoArray, iLabeledCertInfos[..index])
      {
        var labeled := iLabeledCertInfos[index];
        EntriesAppend(iLabeledCertInfos[..index], labeled);
        assert iLabeledCertInfos[..index + 1] == iLabeledCertInfos[..index] + [labeled];
        iClientInfoArray := iClientInfoArray + [labeled.entry];
        iCertList := iCertList + [ListedCert(index, CertType(labeled.entry), labeled.text)];
      }
      assert iLabeledCertInfos[..|iLabeledCertInfos|] == iLabeledCertInfos;
    }

    /** CActive::Cancel, also from the destructor: a run that is on is answered, and nothing
        else is. */
    method Cancel()
      requires Valid()
      modifies this, iClientStatus
      ensures Valid() && Value() == Cancelled(old(Value()))
      ensures old(iClientStatus) != null ==> old(iClientStatus).value == Some(KERR_CANCEL)
      ensures iCertList == old(iCertList) && iClientInfoArray == old(iClientInfoArray)
    {
      if iActive {
        iClientStatus.Complete(KERR_CANCEL);
        iClientStatus := null;
        iState := EIdle;
        iActive := false;
      }
    }
  }

  lemma NothingLabelled(entries: seq<StoreEntry>, store: nat -> Subject, leftover: Option<Subject>)
    ensures RunLabels(entries, store, leftover)[..0] == [] && ParsedTo(entries, 0, store, leftover)
  {
  }

  lemma AtHandFor(entries: seq<StoreEntry>, i: nat, store: nat -> Subject, leftover: Option<Subject>)
    requires i < |entries| && !NeedsSubject(entries[i])
    ensures CertificateFor(entries, i, store, leftover) == if i == 0 then leftover else None
  {
  }

  lemma AllLabelled(entries: seq<StoreEntry>, store: nat -> Subject, leftover: Option<Subject>)
    ensures RunLabels(entries, store, leftover)[..|entries|] == RunLabels(entries, store, leftover)
  {
  }

  lemma OneMoreLabel(entries: seq<StoreEntry>, i: nat, store: nat -> Subject, leftover: Option<Subject>)
    requires i < |entries| && ParsedTo(entries, i, store, leftover)
    ensures var certificate := CertificateFor(entries, i, store, leftover);
      && (NeedsSubject(entries[i]) ==> certificate == Some(store(entries[i].handle)))
      && RunLabels(entries, store, leftover)[..i + 1]
        == RunLabels(entries, store, leftover)[..i] + [LabeledWith(entries[i], certificate)]
      && (!Unparsed(certificate) ==> ParsedTo(entries, i + 1, store, leftover))
  {
  }

  lemma RunEntries(stale: seq<Labeled>, entries: seq<StoreEntry>, store: nat -> Subject, leftover: Option<Subject>)
    ensures Entries(stale + RunLabels(entries, store, leftover)) == Entries(stale) + entries
  {
  }

  lemma SameFirst<T>(x: T, y: T, rest: seq<T>)
    ensures multiset([x] + rest) == multiset([y] + rest) ==> x == y
  {
    if x != y {
      assert multiset([x] + rest)[x] == 1 + multiset(rest)[x];
      assert multiset([y] + rest)[x] == multiset(rest)[x];
    }
  }

  /** The client gets the listed certificates with their right labels, and nothing else,
      exactly when no failed run left entries behind or a certificate with a name. */
  lemma RightListIff(stale: seq<Labeled>, entries: seq<StoreEntry>, store: nat -> Subject, leftover: Option<Subject>)
    requires ParsedTo(entries, |entries|, store, leftover)
    ensures multiset(stale + RunLabels(entries, store, leftover)) == multiset(LabelAll(entries, store)) <==>
      stale == [] && StartsRightly(entries, leftover)
  {
    hide RunLabels, LabelAll, StartsRightly, ParsedTo;
    var labels, right := RunLabels(entries, store, leftover), LabelAll(entries, store);
    RunLabelsRight(entries, store, leftover);
    if multiset(stale + labels) == multiset(right) {
      assert |multiset(stale + labels)| == |stale| + |labels| && |multiset(right)| == |right|;
      assert stale + labels == labels;
      if entries != [] {
        SameFirst(labels[0], right[0], labels[1..]);
        assert labels == [labels[0]] + labels[1..] && right == [right[0]] + right[1..];
      }
    } else if stale == [] {
      assert stale + labels == labels;
    }
  }

  /** The client gets the listed certificates and nothing else exactly when no failed run
      left entries behind. */
  lemma OnlyListedIffNothingStale(infos: seq<StoreEntry>, stale: seq<Labeled>, listed: seq<StoreEntry>)
    requires multiset(infos) == multiset(Entries(stale)) + multiset(listed)
    ensures multiset(infos) == multiset(listed) <==> stale == []
  {
    if stale != [] {
      assert Entries(stale)[0] in multiset(Entries(stale));
      var e := Entries(stale)[0];
      assert multiset(infos)[e] > multiset(listed)[e];
    }
  }

  lemma EntriesAppend(s: seq<Labeled>, x: Labeled)
    ensures Entries(s + [x]) == Entries(s) + [x.entry]
  {
  }

  lemma {:induction false} EntriesPermuted(a: seq<Labeled>, b: seq<Labeled>)
    requires multiset(a) == multiset(b)
    ensures multiset(Entries(a)) == multiset(Entries(b))
    decreases |a|
  {
    hide Entries;
    if a == [] {
      assert |multiset(b)| == 0;
    } else {
      assert a[0] in multiset(b);
      var i :| 0 <= i < |b| && b[i] == a[0];
      RestPermuted(a, b, i);
      EntriesPermuted(a[..0] + a[1..], b[..i] + b[i + 1..]);
      EntriesSplitOff(a, 0);
      EntriesSplitOff(b, i);
    }
  }

  lemma RestPermuted(a: seq<Labeled>, b: seq<Labeled>, i: nat)
    requires multiset(a) == multiset(b) && a != [] && i < |b| && b[i] == a[0]
    ensures multiset(a[..0] + a[1..]) == multiset(b[..i] + b[i + 1..])
    ensures |a[..0] + a[1..]| < |a|
  {
    SplitOff(a, 0);
    SplitOff(b, i);
    CommonCancelled(multiset(a[..0] + a[1..]), multiset(b[..i] + b[i + 1..]), a[0]);
  }

  lemma CommonCancelled<T(!new)>(p: multiset<T>, q: multiset<T>, x: T)
    requires p + multiset{x} == q + multiset{x}
    ensures p == q
  {
    forall y ensures p[y] == q[y] {
      assert (p + multiset{x})[y] == (q + multiset{x})[y];
    }
  }

  lemma EntriesSplitOff(s: seq<Labeled>, i: nat)
    requires i < |s|
    ensures multiset(Entries(s)) == multiset(Entries(s[..i] + s[i + 1..])) + multiset{s[i].entry}
  {
    SplitOff(Entries(s), i);
    assert Entries(s)[..i] + Entries(s)[i + 1..] == Entries(s[..i] + s[i + 1..]);
  }

  lemma SplitOff<T>(s: seq<T>, i: nat)
    requires i < |s|
    ensures multiset(s) == multiset(s[..i] + s[i + 1..]) + multiset{s[i]}
  {
    assert s == s[..i] + [s[i]] + s[i + 1..];
  }
}
