/** CAdvSecSettingsCertMover: the active object that moves the keys and certificates of
    one subject key identifier from one pair of stores to another. */
module CertificateMover {
  import opened Outcomes
  import opened ActiveObjects

  datatype Phase =
    | ENotInitialized
    | EInitializingCertStore
    | EInitializingKeyStore
    | EIdle
    | EMovingKeyListingKeys
    | EMovingKeyExportingKeys
    | EMovingKeyImportingKeys
    | EMovingKeyDeletingOriginal
    | EMovingCertListingCerts
    | EMovingCertRetrievingCerts
    | EMovingCertAddingCerts
    | EMovingCertDeletingOriginal
    | EFailed

  /** The numeric order of the enumeration, which Move and RunError compare by. */
  function Ordinal(p: Phase): nat {
    match p
    case ENotInitialized => 0
    case EInitializingCertStore => 1
    case EInitializingKeyStore => 2
    case EIdle => 3
    case EMovingKeyListingKeys => 4
    case EMovingKeyExportingKeys => 5
    case EMovingKeyImportingKeys => 6
    case EMovingKeyDeletingOriginal => 7
    case EMovingCertListingCerts => 8
    case EMovingCertRetrievingCerts => 9
    case EMovingCertAddingCerts => 10
    case EMovingCertDeletingOriginal => 11
    case EFailed => 12
  }

  predicate Initializing(p: Phase) {
    p == EInitializingCertStore || p == EInitializingKeyStore
  }

  predicate MovingKey(p: Phase) {
    p == EMovingKeyExportingKeys || p == EMovingKeyImportingKeys || p == EMovingKeyDeletingOriginal
  }

  predicate MovingCert(p: Phase) {
    p == EMovingCertRetrievingCerts || p == EMovingCertAddingCerts || p == EMovingCertDeletingOriginal
  }

  predicate Moving(p: Phase) {
    p == EMovingKeyListingKeys || MovingKey(p) || p == EMovingCertListingCerts || MovingCert(p)
  }

  /** Names an object inside one store. */
  type Handle = nat

  /** The key or certificate itself, wherever it is stored. */
  type Identity = nat

  datatype CertInfo = CertInfo(handle: Handle, identity: Identity)

  /** buffer is what iDataBuffer holds; iDataPtr, into which certificates are retrieved, was
      set up to describe iDataBuffer, and still does unless a key store has put another
      buffer there. */
  datatype Mover = Mover(
    state: Phase,
    client: bool,
    active: bool,
    keys: seq<Handle>,
    keyIndex: nat,
    sourceKeyHandle: Handle,
    buffer: Identity,
    ptrInBuffer: bool,
    certs: seq<CertInfo>,
    certIndex: nat)

  /** What a call does to the mover, and the code with which it completes a request: that
      of the stored client, or for Move that of the caller. */
  datatype Reply = Reply(mover: Mover, answer: Option<int>)

  /** A request is outstanding exactly in the states that wait for one, a running move has
      a client and an index within bounds, and an idle or failed mover has no client. */
  predicate Sound(m: Mover) {
    && (m.active <==> Initializing(m.state) || Moving(m.state))
    && (Moving(m.state) ==> m.client)
    && (m.state == EIdle || m.state == EFailed ==> !m.client)
    && (MovingKey(m.state) ==> m.keyIndex < |m.keys|)
    && (MovingCert(m.state) ==> m.certIndex < |m.certs|)
  }

  // --------------------------------------------------- what the methods compute

  function Failed(m: Mover, code: int): Reply {
    Reply(m.(client := false, active := false, state := if Ordinal(m.state) < Ordinal(EIdle) then EFailed else EIdle),
      if m.client then Some(code) else None)
  }

  /** A request was issued: wait for it in state p. */
  function Waiting(m: Mover, p: Phase): Reply {
    Reply(m.(state := p, active := true), None)
  }

  /** ExportOneKeyL at index i; past the last key the certificates are listed, which
      allocates and may leave. */
  function ExportedOne(m: Mover, i: nat, leave: int): Reply {
    var m := m.(keyIndex := i);
    if i < |m.keys| then Waiting(m, EMovingKeyExportingKeys)
    else if leave < 0 then Failed(m, leave)
    else Waiting(m, EMovingCertListingCerts)
  }

  /** RetrieveOneCertL at index i; past the last certificate the client is answered. */
  function RetrievedOne(m: Mover, i: nat): Reply {
    var m := m.(certIndex := i);
    if i < |m.certs| then Waiting(m, EMovingCertRetrievingCerts)
    else Reply(m.(state := EIdle, client := false, active := false), Some(KERR_NONE))
  }

  /** RunL and, when it leaves, RunError. A negative status makes it leave at once; a
      negative leave is the code with which an allocation or a search in it fails. */
  function Ran(m: Mover, status: int, leave: int): Reply
    requires Sound(m) && m.active
  {
    if status < 0 then Failed(m, status)
    else match m.state
      case EInitializingCertStore => Waiting(m, EInitializingKeyStore)
      case EInitializingKeyStore =>
        var m := m.(state := EIdle, active := false);
        if !m.client then Reply(m, None)
        else if leave < 0 then Failed(m, leave)
        else Waiting(m, EMovingKeyListingKeys)
      case EMovingKeyListingKeys => ExportedOne(m, 0, leave)
      case EMovingKeyExportingKeys =>
        var m := m.(sourceKeyHandle := m.keys[m.keyIndex]);
        if leave < 0 then Failed(m, leave) else Waiting(m, EMovingKeyImportingKeys)
      case EMovingKeyImportingKeys => Waiting(m, EMovingKeyDeletingOriginal)
      case EMovingKeyDeletingOriginal => ExportedOne(m, m.keyIndex + 1, leave)
      case EMovingCertListingCerts => RetrievedOne(m, 0)
      case EMovingCertRetrievingCerts => Waiting(m, EMovingCertAddingCerts)
      case EMovingCertAddingCerts => Waiting(m, EMovingCertDeletingOriginal)
      case EMovingCertDeletingOriginal => RetrievedOne(m, m.certIndex + 1)
  }

  /** Move. */
  function Moved(m: Mover, leave: int): Reply {
    if m.client then Reply(m, Some(KERR_IN_USE))
    else if Ordinal(m.state) > Ordinal(EIdle) then Reply(m, Some(KERR_GENERAL))
    else if m.state != EIdle then Reply(m.(client := true), None)
    else if leave < 0 then Reply(m, Some(leave))
    else Waiting(m.(client := true), EMovingKeyListingKeys)
  }

  /** Cancel: nothing without an outstanding request. */
  function Cancelled(m: Mover): Reply {
    if !m.active then Reply(m, None)
    else
      var state := if Initializing(m.state) then ENotInitialized else if Moving(m.state) then EIdle else m.state;
      Reply(m.(state := state, client := false, active := false), if m.client then Some(KERR_CANCEL) else None)
  }

  lemma RanSound(m: Mover, status: int, leave: int)
    requires Sound(m) && m.active
    ensures Sound(Ran(m, status, leave).mover)
    ensures Ran(m, status, leave).answer.Some? <==> m.client && !Ran(m, status, leave).mover.client
    ensures Ran(m, status, leave).mover.client ==> m.client
  {
    if status < 0 {
    } else if m.state == EMovingKeyListingKeys || m.state == EMovingKeyDeletingOriginal {
    } else if m.state == EMovingCertListingCerts || m.state == EMovingCertDeletingOriginal {
    } else {
    }
  }

  lemma SoundParts(m: Mover)
    requires Sound(m)
    ensures m.active <==> Initializing(m.state) || Moving(m.state)
    ensures Moving(m.state) ==> m.client
    ensures MovingKey(m.state) ==> m.keyIndex < |m.keys|
    ensures m.client && m.state != ENotInitialized ==> m.active
  {
  }

  lemma MovedSound(m: Mover, leave: int)
    requires Sound(m)
    ensures Sound(Moved(m, leave).mover)
    ensures Moved(m, leave).answer == None <==> !m.client && Moved(m, leave).mover.client
    ensures Moved(m, leave).answer.Some? ==> Moved(m, leave).mover == m
    ensures Moved(m, leave).mover.state == m.state || Moved(m, leave).mover.state == EMovingKeyListingKeys
  {
  }

  lemma CancelledSound(m: Mover)
    requires Sound(m)
    ensures Sound(Cancelled(m).mover) && !Cancelled(m).mover.active
    ensures Cancelled(m).answer.Some? <==> m.client && !Cancelled(m).mover.client
    ensures Cancelled(m).mover.client ==> m.client
    ensures m.client && m.active ==> Cancelled(m).answer == Some(KERR_CANCEL)
  {
  }

  // ------------------------------------------------------------------ objects

  class CertMover {
    var iState: Phase
    var iClientStatus: RequestStatus?
    var iActive: bool
    var iKeys: seq<Handle>
    var iKeyIndex: nat
    var iSourceKeyHandle: Handle
    var iDataBuffer: Identity
    var iDataPtrInBuffer: bool
    var iCerts: seq<CertInfo>
    var iCertIndex: nat

    function Value(): Mover
      reads this
    {
      Mover(iState, iClientStatus != null, iActive, iKeys, iKeyIndex, iSourceKeyHandle, iDataBuffer, iDataPtrInBuffer,
        iCerts, iCertIndex)
    }

    /** A stored client is still waiting for its answer. */
    ghost predicate Valid()
      reads this, iClientStatus
    {
      Sound(Value()) && (iClientStatus != null ==> iClientStatus.value == None)
    }

    /** NewL: initialising the certificate store starts at once. */
    constructor ()
      ensures Valid() && iClientStatus == null && iState == EInitializingCertStore && iKeys == [] && iCerts == []
      ensures iDataPtrInBuffer
    {
      iState, iClientStatus, iActive := EInitializingCertStore, null, true;
      iKeys, iKeyIndex, iSourceKeyHandle, iCerts, iCertIndex := [], 0, 0, [], 0;
      iDataBuffer, iDataPtrInBuffer := 0, true;
    }

    /** The stored client, if any, is answered. */
    method CompleteClient(code: int)
      requires iClientStatus != null ==> iClientStatus.value == None
      modifies this`iClientStatus, iClientStatus
      ensures iClientStatus == null
      ensures old(iClientStatus) != null ==> old(iClientStatus).value == Some(code)
    {
      if iClientStatus != null {
        iClientStatus.Complete(code);
        iClientStatus := null;
      }
    }

    method Move(status: RequestStatus, leave: int)
      requires Valid() && status != iClientStatus
      modifies this, status
      ensures Valid()
      ensures Value() == Moved(old(Value()), leave).mover
      ensures status.value == Moved(old(Value()), leave).answer
      ensures iClientStatus == if status.value == None then status else old(iClientStatus)
    {
      status.SetPending();
      if iClientStatus == null {
        iClientStatus := status;
        if Ordinal(iState) <= Ordinal(EIdle) {
          if iState == EIdle {
            if leave < 0 {
              CompleteClient(leave);
            } else {
              StartMovingKeys();
            }
          }
        } else {
          CompleteClient(KERR_GENERAL);
        }
      } else {
        status.Complete(KERR_IN_USE);
      }
    }

    method StartMovingKeys()
      modifies this`iState, this`iActive
      ensures iState == EMovingKeyListingKeys && iActive
    {
      iState := EMovingKeyListingKeys;
      iActive := true;
    }

    /** One event of the scheduler: RunL, and RunError where it leaves. */
    method RunL(status: int, leave: int)
      requires Valid() && iActive
      modifies this, iClientStatus
      ensures Valid()
      ensures Value() == Ran(old(Value()), status, leave).mover
      ensures old(iClientStatus) != null ==> old(iClientStatus).value == Ran(old(Value()), status, leave).answer
      ensures iClientStatus == null || iClientStatus == old(iClientStatus)
    {
      hide Sound, ExportedOne, RetrievedOne;
      RanSound(Value(), status, leave);
      SoundParts(Value());
      iActive := false;
      if status < 0 {
        RunError(status);
      } else if iState == EInitializingCertStore || iState == EInitializingKeyStore {
        RunInitialization(leave);
      } else if iState == EMovingKeyListingKeys || MovingKey(iState) {
        RunKeyStep(leave);
      } else {
        RunCertStep();
      }
    }

    method RunInitialization(leave: int)
      requires Initializing(iState) && !iActive && (iClientStatus != null ==> iClientStatus.value == None)
      modifies this`iState, this`iActive, this`iClientStatus, iClientStatus
      ensures Sound(old(Value()).(active := true)) ==> Value() == Ran(old(Value()).(active := true), 0, leave).mover
      ensures Sound(old(Value()).(active := true)) && old(iClientStatus) != null ==>
        old(iClientStatus).value == Ran(old(Value()).(active := true), 0, leave).answer
      ensures iClientStatus == null || iClientStatus == old(iClientStatus)
    {
      if iState == EInitializingCertStore {
        iState := EInitializingKeyStore;
        iActive := true;
      } else {
        iState := EIdle;
        if iClientStatus != null {
          if leave < 0 {
            RunError(leave);
          } else {
            StartMovingKeys();
          }
        }
      }
    }

    method RunKeyStep(leave: int)
      requires (iState == EMovingKeyListingKeys || MovingKey(iState)) && !iActive && iClientStatus != null
        && iClientStatus.value == None
      requires MovingKey(iState) ==> iKeyIndex < |iKeys|
      modifies this`iState, this`iActive, this`iClientStatus, this`iKeyIndex, this`iSourceKeyHandle, iClientStatus
      ensures Value() == Ran(old(Value()).(active := true), 0, leave).mover
      ensures old(iClientStatus).value == Ran(old(Value()).(active := true), 0, leave).answer
      ensures iClientStatus == null || iClientStatus == old(iClientStatus)
    {
      if iState == EMovingKeyListingKeys {
        iKeyIndex := 0;
        ExportOneKeyL(leave);
      } else if iState == EMovingKeyExportingKeys {
        iSourceKeyHandle := iKeys[iKeyIndex];
        if leave < 0 {
          RunError(leave);
        } else {
          iState := EMovingKeyImportingKeys;
          iActive := true;
        }
      } else if iState == EMovingKeyImportingKeys {
        iState := EMovingKeyDeletingOriginal;
        iActive := true;
      } else {
        iKeyIndex := iKeyIndex + 1;
        ExportOneKeyL(leave);
      }
    }

    method RunCertStep()
      requires (iState == EMovingCertListingCerts || MovingCert(iState)) && !iActive && iClientStatus != null
        && iClientStatus.value == None
      modifies this`iState, this`iActive, this`iClientStatus, this`iCertIndex, iClientStatus
      ensures Sound(old(Value()).(active := true)) ==> Value() == Ran(old(Value()).(active := true), 0, 0).mover
      ensures Sound(old(Value()).(active := true)) ==>
        old(iClientStatus).value == Ran(old(Value()).(active := true), 0, 0).answer
      ensures iClientStatus == null || iClientStatus == old(iClientStatus)
    {
      if iState == EMovingCertListingCerts {
        iCertIndex := 0;
        RetrieveOneCertL();
      } else if iState == EMovingCertRetrievingCerts {
        iState := EMovingCertAddingCerts;
        iActive := true;
      } else if iState == EMovingCertAddingCerts {
        iState := EMovingCertDeletingOriginal;
        iActive := true;
      } else {
        iCertIndex := iCertIndex + 1;
        RetrieveOneCertL();
      }
    }

    method RunError(error: int)
      requires iClientStatus != null ==> iClientStatus.value == None
      modifies this`iClientStatus, this`iState, iClientStatus
      ensures iClientStatus == null
      ensures old(iClientStatus) != null ==> old(iClientStatus).value == Some(error)
      ensures iState == if Ordinal(old(iState)) < Ordinal(EIdle) then EFailed else EIdle
    {
      CompleteClient(error);
      if Ordinal(iState) < Ordinal(EIdle) {
        iState := EFailed;
      } else {
        iState := EIdle;
      }
    }

    method ExportOneKeyL(leave: int)
      requires Moving(iState) && iClientStatus != null && iClientStatus.value == None && !iActive
      modifies this`iState, this`iActive, this`iClientStatus, iClientStatus
      ensures Value() == ExportedOne(old(Value()), iKeyIndex, leave).mover
      ensures old(iClientStatus).value == ExportedOne(old(Value()), iKeyIndex, leave).answer
      ensures iClientStatus == null || iClientStatus == old(iClientStatus)
    {
      if iKeyIndex < |iKeys| {
        iState := EMovingKeyExportingKeys;
        iActive := true;
      } else if leave < 0 {
        RunError(leave);
      } else {
        iState := EMovingCertListingCerts;
        iActive := true;
      }
    }

    method RetrieveOneCertL()
      requires Moving(iState) && iClientStatus != null && iClientStatus.value == None && !iActive
      modifies this`iState, this`iActive, this`iClientStatus, iClientStatus
      ensures Value() == RetrievedOne(old(Value()), iCertIndex).mover
      ensures old(iClientStatus).value == RetrievedOne(old(Value()), iCertIndex).answer
      ensures iClientStatus == null || iClientStatus == old(iClientStatus)
    {
      if iCertIndex < |iCerts| {
        iState := EMovingCertRetrievingCerts;
        iActive := true;
      } else {
        iState := EIdle;
        CompleteClient(KERR_NONE);
      }
    }

    /** CActive::Cancel: DoCancel runs only while a request is outstanding. */
    method Cancel()
      requires Valid()
      modifies this, iClientStatus
      ensures Valid() && !iActive
      ensures Value() == Cancelled(old(Value())).mover
      ensures old(iClientStatus) != null ==> old(iClientStatus).value == Cancelled(old(Value())).answer
      ensures iClientStatus == null || iClientStatus == old(iClientStatus)
    {
      if iActive {
        if Initializing(iState) {
          iState := ENotInitialized;
        } else if Moving(iState) {
          iState := EIdle;
        }
        CompleteClient(KERR_CANCEL);
        iActive := false;
      }
    }
  }
}
