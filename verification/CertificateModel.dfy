/** AdvSecSettingsCertificateModelPrivate: the active object behind the certificate views,
    which drives the certificate store, the list builder and the mover. */
module CertificateModel {
  import opened Outcomes
  import opened ActiveObjects
  import opened LabeledCertInfo
  import Builder = CertListBuilder
  import Mover = CertificateMover

  datatype ModelState =
    | ENotInitialized
    | EInitializing
    | EIdle
    | EGettingCertificatesList
    | EBuildingCertificateDetails
    | EDeletingCertificate
    | EReadingApplications
    | EWritingApplications
    | EMovingCertificateToPersonalStore
    | EMovingCertificateToDeviceStore

  datatype Callback =
    | InitializeCompleted
    | GetCertificatesCompleted
    | GetCertificateDetailsCompleted
    | DeleteCertificateCompleted
    | GetTrustSettingsCompleted
    | SetTrustSettingsCompleted
    | MoveToPersonalCertificateCompleted
    | MoveToDeviceCertificatesCompleted
    | Error(code: int)

  /** The callback that reports the success of what the state waits for. */
  function CompletionOf(state: ModelState): Callback
    requires state != ENotInitialized && state != EIdle
  {
    match state
    case EInitializing => InitializeCompleted
    case EGettingCertificatesList => GetCertificatesCompleted
    case EBuildingCertificateDetails => GetCertificateDetailsCompleted
    case EDeletingCertificate => DeleteCertificateCompleted
    case EReadingApplications => GetTrustSettingsCompleted
    case EWritingApplications => SetTrustSettingsCompleted
    case EMovingCertificateToPersonalStore => MoveToPersonalCertificateCompleted
    case EMovingCertificateToDeviceStore => MoveToDeviceCertificatesCompleted
  }

  predicate MovingState(state: ModelState) {
    state == EMovingCertificateToPersonalStore || state == EMovingCertificateToDeviceStore
  }

  /** Requests that go to the store, or to the details builder, directly. */
  predicate StoreState(state: ModelState) {
    || state == EInitializing || state == EBuildingCertificateDetails || state == EDeletingCertificate
    || state == EReadingApplications || state == EWritingApplications
  }

  /** CertificateInfo: the entry under a model index, if there is one. */
  function CertificateInfo(infos: seq<StoreEntry>, modelIndex: int): (r: Option<StoreEntry>)
    ensures r.Some? <==> 0 <= modelIndex < |infos|
  {
    if 0 <= modelIndex < |infos| then Some(infos[modelIndex]) else None
  }

  /** Looking a listed certificate up by its model index gives exactly the store entry it
      was built from, whose type and label it shows. */
  lemma ListedCertsAreFound(certList: seq<Builder.ListedCert>, infos: seq<StoreEntry>, returned: seq<Labeled>, i: nat)
    requires Builder.Describes(certList, infos, returned) && i < |certList|
    ensures CertificateInfo(infos, certList[i].modelIndex) == Some(returned[i].entry)
    ensures certList[i].certType == Builder.CertType(returned[i].entry) && certList[i].text == returned[i].text
  {
  }

  class CertificateModelPrivate {
    const iStatus: RequestStatus
    const iCertStore: nat -> Subject
    var iState: ModelState
    var iActive: bool
    var iCertInfo: Option<StoreEntry>
    var iCertInfoArray: seq<StoreEntry>
    var iCertList: seq<Builder.ListedCert>
    var iCertListBuilder: Builder.CertListBuilder?
    var iMover: Mover.CertMover?

    /** The calls of the view's handlers, in order. */
    var iCallbacks: seq<Callback>

    /** Requests made so far, without those that name no certificate. */
    ghost var iRequests: nat

    /** Outside RunL the model is active exactly when its state waits for something; every
        request has led to one callback, except for the one that is on. */
    ghost predicate Valid()
      reads this, iStatus, iCertListBuilder, iMover
    {
      && (iActive <==> iState != ENotInitialized && iState != EIdle)
      && iRequests == |iCallbacks| + (if iActive then 1 else 0)
      && BuilderValid() && MoverValid()
    }

    /** The list builder holds the model's status exactly while it still has to answer. */
    ghost predicate BuilderValid()
      reads this, iStatus, iCertListBuilder
    {
      && (iState == EGettingCertificatesList ==>
        iCertListBuilder != null && (iStatus.value == None <==> iCertListBuilder.iClientStatus == iStatus))
      && (iCertListBuilder != null ==>
        && (iCertListBuilder.iClientStatus == null || iCertListBuilder.iClientStatus == iStatus)
        && (iState != EGettingCertificatesList ==> iCertListBuilder.iClientStatus == null)
        && iCertListBuilder.Valid())
    }

    /** So does the mover, whose initialisation is never cancelled on its own. */
    ghost predicate MoverValid()
      reads this, iStatus, iMover
    {
      && (MovingState(iState) ==> iMover != null && (iStatus.value == None <==> iMover.iClientStatus == iStatus))
      && (iMover != null ==>
        && (iMover.iClientStatus == null || iMover.iClientStatus == iStatus)
        && (!MovingState(iState) ==> iMover.iClientStatus == null)
        && iMover.Valid() && iMover.iState != Mover.ENotInitialized)
    }

    constructor (certStore: nat -> Subject)
      ensures Valid() && iState == ENotInitialized && iCallbacks == [] && fresh(iStatus)
    {
      iStatus := new RequestStatus();
      iCertStore := certStore;
      iState, iActive, iCertInfo, iCertInfoArray, iCertList := ENotInitialized, false, None, [], [];
      iCertListBuilder, iMover, iCallbacks, iRequests := null, null, [], 0;
    }

    // ---------------------------------------------------------------- requests

    method Initialize(leave: int)
      requires Valid()
      modifies this, iStatus
      ensures Valid() && iRequests == old(iRequests) + 1
      ensures iState == if old(iState) == ENotInitialized && leave >= 0 then EInitializing else old(iState)
      ensures old(iState) != ENotInitialized ==> iCallbacks == old(iCallbacks) + [Error(KERR_ALREADY_EXISTS)]
      ensures old(iState) == ENotInitialized ==>
        iCallbacks == old(iCallbacks) + if leave < 0 then [Error(leave)] else []
    {
      iRequests := iRequests + 1;
      if !iActive && iState == ENotInitialized {
        if leave < 0 {
          iCallbacks := iCallbacks + [Error(leave)];
          return;
        }
        iStatus.SetPending();
        iState := EInitializing;
        iActive := true;
      } else {
        iCallbacks := iCallbacks + [Error(KERR_ALREADY_EXISTS)];
      }
    }

    method GetCertificates(leave: int)
      requires Valid()
      modifies this, iStatus, iCertListBuilder
      ensures Valid() && iRequests == old(iRequests) + 1
      ensures old(iState) != EIdle ==> iState == old(iState) && iCallbacks == old(iCallbacks) + [Error(KERR_IN_USE)]
      ensures old(iState) == EIdle && old(iCertListBuilder) == null && leave < 0 ==>
        iState == EIdle && iCallbacks == old(iCallbacks) + [Error(leave)]
      ensures old(iState) == EIdle && (old(iCertListBuilder) != null || leave >= 0) ==>
        iState == EGettingCertificatesList && iCallbacks == old(iCallbacks) && iStatus.value == None
    {
      iRequests := iRequests + 1;
      if !iActive && iState == EIdle {
        if iCertListBuilder == null {
          if leave < 0 {
            iCallbacks := iCallbacks + [Error(leave)];
            return;
          }
          iCertListBuilder := new Builder.CertListBuilder(iCertStore);
        }
        iCertListBuilder.GetCertificateList(iStatus);
        iState := EGettingCertificatesList;
        iActive := true;
      } else {
        iCallbacks := iCallbacks + [Error(KERR_IN_USE)];
      }
    }

    /** The requests on one certificate that go to the store or to the details builder; only
        the details builder may leave. */
    method StoreRequest(request: ModelState, modelIndex: int, leave: int)
      requires Valid() && StoreState(request) && request != EInitializing
      requires request != EBuildingCertificateDetails ==> leave >= 0
      modifies this, iStatus
      ensures Valid()
      ensures old(iState) != EIdle ==> iState == old(iState) && iCallbacks == old(iCallbacks) + [Error(KERR_IN_USE)]
      ensures old(iState) == EIdle && CertificateInfo(iCertInfoArray, modelIndex).None? ==>
        iState == EIdle && iCallbacks == old(iCallbacks) && iRequests == old(iRequests)
      ensures old(iState) != EIdle || CertificateInfo(iCertInfoArray, modelIndex).Some? ==>
        iRequests == old(iRequests) + 1
      ensures old(iState) == EIdle && CertificateInfo(iCertInfoArray, modelIndex).Some? && leave >= 0 ==>
        iState == request && iCallbacks == old(iCallbacks) && iCertInfo == CertificateInfo(iCertInfoArray, modelIndex)
      ensures old(iState) == EIdle && CertificateInfo(iCertInfoArray, modelIndex).Some? && leave < 0 ==>
        iState == EIdle && iCallbacks == old(iCallbacks) + [Error(leave)]
      ensures iCertInfoArray == old(iCertInfoArray)
    {
      if !iActive && iState == EIdle {
        iCertInfo := CertificateInfo(iCertInfoArray, modelIndex);
        if iCertInfo.Some? {
          iRequests := iRequests + 1;
          if leave < 0 {
            iCallbacks := iCallbacks + [Error(leave)];
            return;
          }
          iStatus.SetPending();
          iState := request;
          iActive := true;
        }
      } else {
        iRequests := iRequests + 1;
        iCallbacks := iCallbacks + [Error(KERR_IN_USE)];
      }
    }

    /** Both directions of moving; the mover may answer at once. */
    method MoveRequest(request: ModelState, modelIndex: int, leave: int, moveLeave: int)
      requires Valid() && MovingState(request)
      modifies this, iStatus, iMover
      ensures Valid()
      ensures old(iState) != EIdle ==> iState == old(iState) && iCallbacks == old(iCallbacks) + [Error(KERR_IN_USE)]
      ensures old(iState) == EIdle && CertificateInfo(iCertInfoArray, modelIndex).None? ==>
        iState == EIdle && iCallbacks == old(iCallbacks) && iRequests == old(iRequests)
      ensures old(iState) != EIdle || CertificateInfo(iCertInfoArray, modelIndex).Some? ==>
        iRequests == old(iRequests) + 1
      ensures old(iState) == EIdle && CertificateInfo(iCertInfoArray, modelIndex).Some? ==>
        if old(iMover) != null || leave >= 0 then iState == request && iCallbacks == old(iCallbacks)
        else iState == EIdle && iCallbacks == old(iCallbacks) + [Error(leave)]
      ensures iCertInfoArray == old(iCertInfoArray)
    {
      if !iActive && iState == EIdle {
        iCertInfo := CertificateInfo(iCertInfoArray, modelIndex);
        if iCertInfo.Some? {
          iRequests := iRequests + 1;
          if iMover == null {
            if leave < 0 {
              iCallbacks := iCallbacks + [Error(leave)];
              return;
            }
            iMover := new Mover.CertMover();
          }
          StartMove(request, moveLeave);
        }
      } else {
        iRequests := iRequests + 1;
        iCallbacks := iCallbacks + [Error(KERR_IN_USE)];
      }
    }

    method StartMove(request: ModelState, moveLeave: int)
      requires iState == EIdle && MovingState(request) && BuilderValid() && MoverValid() && iMover != null
      modifies this`iState, this`iActive, iStatus, iMover
      ensures iState == request && iActive && BuilderValid() && MoverValid()
    {
      hide Mover.Moved, Mover.Sound, Builder.CertListBuilder.Labelling;
      Mover.MovedSound(iMover.Value(), moveLeave);
      iMover.Move(iStatus, moveLeave);
      iState := request;
      iActive := true;
    }

    predicate IsDeletable(modelIndex: int)
      reads this
    {
      match CertificateInfo(iCertInfoArray, modelIndex)
      case Some(entry) => entry.deletable
      case None => false
    }

    // ------------------------------------------------------------------ events

    /** The store completes the request it was given. */
    method StoreCompletes(code: int)
      requires Valid() && StoreState(iState) && iStatus.value == None
      modifies iStatus
      ensures Valid() && iStatus.value == Some(code)
    {
      iStatus.Complete(code);
    }

    /** The scheduler runs the list builder; a successful run has written both arrays. */
    method BuilderRuns(status: int, listed: seq<StoreEntry>, leftover: Subject)
      requires Valid() && iCertListBuilder != null && iCertListBuilder.iActive
      modifies this`iCertInfoArray, this`iCertList, iCertListBuilder, iStatus
      ensures Valid()
      ensures iStatus.value.Some? <==> iCertListBuilder.iState == Builder.EIdle
      ensures iStatus.value == Some(KERR_NONE) ==>
        && iCertInfoArray == iCertListBuilder.iClientInfoArray && iCertList == iCertListBuilder.iCertList
        && Builder.Describes(iCertList, iCertInfoArray, iCertListBuilder.iReturned)
      ensures iStatus.value != Some(KERR_NONE) ==> iCertInfoArray == old(iCertInfoArray) && iCertList == old(iCertList)
    {
      hide Builder.Ran, Builder.CertListBuilder.Valid, Builder.CertListBuilder.Returned, Builder.Describes, Mover.Sound;
      iCertListBuilder.ActiveHasClient();
      ghost var entries := if iCertListBuilder.iState == Builder.EListingCerts then listed
        else iCertListBuilder.iCertInfoArray;
      iCertListBuilder.RunL(status, listed, leftover);
      if iStatus.value == Some(KERR_NONE) {
        iCertListBuilder.ReturnedDescribes(entries);
        iCertInfoArray := iCertListBuilder.iClientInfoArray;
        iCertList := iCertListBuilder.iCertList;
      }
    }

    /** The scheduler runs the mover. */
    method MoverRuns(status: int, leave: int)
      requires Valid() && iMover != null && iMover.iActive
      modifies iMover, iStatus
      ensures Valid()
      ensures MovingState(iState) && old(iStatus.value) == None ==>
        iStatus.value == Mover.Ran(old(iMover.Value()), status, leave).answer
    {
      iMover.RunL(status, leave);
    }

    /** The scheduler runs the model once its status has been completed: exactly one
        callback, and the model is idle, or as before its initialisation. */
    method RunL()
      requires Valid() && iActive && iStatus.value.Some?
      modifies this
      ensures Valid() && !iActive
      ensures iCallbacks == old(iCallbacks)
        + [if iStatus.value.value < 0 then Error(iStatus.value.value) else CompletionOf(old(iState))]
      ensures iState == if old(iState) == EInitializing && iStatus.value.value < 0 then ENotInitialized else EIdle
      ensures iCertInfoArray == old(iCertInfoArray) && iRequests == old(iRequests)
    {
      iActive := false;
      if iStatus.value.value < 0 {
        RunError(iStatus.value.value);
      } else {
        var callback := CompletionOf(iState);
        iState := EIdle;
        iCallbacks := iCallbacks + [callback];
      }
    }

    method RunError(error: int)
      modifies this`iState, this`iCallbacks
      ensures iState == if old(iState) == EInitializing then ENotInitialized else EIdle
      ensures iCallbacks == old(iCallbacks) + [Error(error)]
    {
      if iState == EInitializing {
        iState := ENotInitialized;
      } else {
        iState := EIdle;
      }
      iCallbacks := iCallbacks + [Error(error)];
    }

    /** CActive::Cancel: DoCancel, then a wait for the status, which has been completed by
        then, once, whether the request had already been answered, was cancelled in the
        store, or was on its way in an object that is deleted. */
    method Cancel()
      requires Valid()
      modifies this, iStatus, iCertListBuilder, iMover
      ensures Valid() && !iActive
      ensures old(iActive) ==> iCallbacks == old(iCallbacks) + [Error(KERR_CANCEL)] && iStatus.value.Some?
      ensures old(iActive) ==> iState == if old(iState) == EInitializing then ENotInitialized else EIdle
      ensures old(iActive) && old(iStatus.value) == None ==> iStatus.value == Some(KERR_CANCEL)
      ensures old(iActive) && old(iStatus.value).Some? ==> iStatus.value == old(iStatus.value)
      ensures !old(iActive) ==> iState == old(iState) && iCallbacks == old(iCallbacks)
    {
      if iActive {
        if StoreState(iState) {
          if iStatus.value == None {
            iStatus.Complete(KERR_CANCEL);
          }
        } else if iState == EGettingCertificatesList {
          DeleteBuilder();
        } else {
          DeleteMover();
        }
        if iState == EInitializing {
          iState := ENotInitialized;
        } else {
          iState := EIdle;
        }
        iCallbacks := iCallbacks + [Error(KERR_CANCEL)];
        assert iStatus.value.Some?;
        iActive := false;
      }
    }

    /** Deleting the list builder cancels it, which answers the model unless that has
        already happened. */
    method DeleteBuilder()
      requires iState == EGettingCertificatesList && BuilderValid() && MoverValid()
      modifies this`iCertListBuilder, iStatus, iCertListBuilder
      ensures iCertListBuilder == null && MoverValid()
      ensures iStatus.value == if old(iStatus.value) == None then Some(KERR_CANCEL) else old(iStatus.value)
    {
      hide Mover.Sound, Builder.CertListBuilder.Labelling;
      iCertListBuilder.Cancel();
      iCertListBuilder := null;
    }

    /** So does deleting the mover, at any step of its work. */
    method DeleteMover()
      requires MovingState(iState) && BuilderValid() && MoverValid()
      modifies this`iMover, iStatus, iMover
      ensures iMover == null && BuilderValid()
      ensures iStatus.value == if old(iStatus.value) == None then Some(KERR_CANCEL) else old(iStatus.value)
    {
      hide Mover.Cancelled, Mover.Sound, Builder.CertListBuilder.Labelling;
      Mover.SoundParts(iMover.Value());
      Mover.CancelledSound(iMover.Value());
      iMover.Cancel();
      iMover := null;
    }
  }
}
