/** Runs of the certificate mover against two key stores and two certificate stores that
    complete each request with success or with any error, and that may have carried out
    a request that failed or was cancelled. */
module MoverRuns {
  import opened Outcomes
  import opened ActiveObjects
  import opened CertificateMover

  type Objects = map<Handle, Identity>

  datatype Stores = Stores(
    sourceKeys: Objects,
    targetKeys: Objects,
    sourceCerts: Objects,
    targetCerts: Objects)

  /** What the outstanding request does: whether it took place, where an import or an
      addition put its object, what it wrote into the key info it was given, whether an
      export put a new buffer in place of the one it was given, and what a listing
      returned. */
  datatype Effect = Effect(happened: bool, handle: Handle, info: Handle, replaced: bool, keys: seq<Handle>,
    certs: seq<CertInfo>)

  datatype Event =
    | Completion(status: int, effect: Effect, leave: int)
    | MoveCall(leave: int)
    | CancelCall(effect: Effect)

  datatype Answer = Answer(client: nat, code: int)

  /** The mover and its stores; the stores, the listed keys and the completions of the
      current move; and the clients: how many calls, which one is stored, who was answered. */
  datatype System = System(
    mover: Mover,
    stores: Stores,
    atStart: Stores,
    listed: seq<Handle>,
    completions: nat,
    issued: nat,
    pending: nat,
    answers: seq<Answer>)

  // -------------------------------------------------------------- environment

  /** What the request writes into the mover's fields. */
  function Written(m: Mover, w: Stores, e: Effect): (r: Mover)
    requires Sound(m)
    ensures Sound(r) && r.state == m.state && r.client == m.client && r.active == m.active
  {
    match m.state
    case EMovingKeyListingKeys => m.(keys := e.keys)
    case EMovingKeyExportingKeys =>
      if e.happened && m.keys[m.keyIndex] in w.sourceKeys then
        m.(buffer := w.sourceKeys[m.keys[m.keyIndex]], ptrInBuffer := m.ptrInBuffer && !e.replaced)
      else m
    case EMovingKeyImportingKeys => if e.happened then m.(keys := m.keys[m.keyIndex := e.info]) else m
    case EMovingCertListingCerts => m.(certs := e.certs)
    case EMovingCertRetrievingCerts =>
      if e.happened && m.ptrInBuffer && m.certs[m.certIndex].handle in w.sourceCerts then
        m.(buffer := w.sourceCerts[m.certs[m.certIndex].handle])
      else m
    case _ => m
  }

  /** What the request does to the stores. */
  function Changed(m: Mover, w: Stores, e: Effect): Stores
    requires Sound(m)
  {
    if !e.happened then w
    else match m.state
      case EMovingKeyImportingKeys => w.(targetKeys := w.targetKeys[e.handle := m.buffer])
      case EMovingKeyDeletingOriginal => w.(sourceKeys := w.sourceKeys - {m.sourceKeyHandle})
      case EMovingCertAddingCerts => w.(targetCerts := w.targetCerts[e.handle := m.buffer])
      case EMovingCertDeletingOriginal => w.(sourceCerts := w.sourceCerts - {m.certs[m.certIndex].handle})
      case _ => w
  }

  /** Exporting and retrieving need an object to be there, importing and adding never
      overwrite another one, and listed certificates are what the source store holds under their handle. */
  predicate EffectPossible(m: Mover, w: Stores, e: Effect)
    requires Sound(m)
  {
    match m.state
    case EMovingKeyExportingKeys => e.happened ==> m.keys[m.keyIndex] in w.sourceKeys
    case EMovingKeyImportingKeys => e.happened ==> e.handle !in w.targetKeys
    case EMovingCertListingCerts => Listed(e.certs, w)
    case EMovingCertRetrievingCerts => e.happened ==> m.certs[m.certIndex].handle in w.sourceCerts
    case EMovingCertAddingCerts => e.happened ==> e.handle !in w.targetCerts
    case _ => true
  }

  predicate Listed(certs: seq<CertInfo>, w: Stores) {
    forall i :: 0 <= i < |certs| && certs[i].handle in w.sourceCerts ==>
      w.sourceCerts[certs[i].handle] == certs[i].identity
  }

  /** A request completes only while one is outstanding, and success means it took place. */
  predicate Possible(s: System, ev: Event)
    requires Sound(s.mover)
  {
    match ev
    case Completion(status, e, _) =>
      s.mover.active && (status >= 0 ==> e.happened) && EffectPossible(s.mover, s.stores, e)
    case MoveCall(_) => true
    case CancelCall(e) => s.mover.active ==> EffectPossible(s.mover, s.stores, e)
  }

  // --------------------------------------------------------------------- steps

  function Answered(s: System, client: nat, code: Option<int>): seq<Answer> {
    match code
    case Some(c) => s.answers + [Answer(client, c)]
    case None => s.answers
  }

  /** A move that has just been started is measured against the stores as they are now. */
  function Begun(s: System): System {
    s.(atStart := s.stores, listed := [], completions := 0)
  }

  function AfterCompletion(s: System, status: int, e: Effect, leave: int): System
    requires Sound(s.mover) && s.mover.active
  {
    var m := Written(s.mover, s.stores, e);
    var reply := Ran(m, status, leave);
    var t := s.(mover := reply.mover, stores := Changed(s.mover, s.stores, e),
      answers := Answered(s, s.pending, reply.answer), completions := s.completions + 1,
      listed := if m.state == EMovingKeyListingKeys then m.keys else s.listed);
    if t.mover.state == EMovingKeyListingKeys then Begun(t) else t
  }

  function AfterMove(s: System, leave: int): System
    requires Sound(s.mover)
  {
    var reply := Moved(s.mover, leave);
    var t := s.(mover := reply.mover, issued := s.issued + 1, answers := Answered(s, s.issued, reply.answer),
      pending := if reply.answer == None then s.issued else s.pending);
    if reply.answer == None && t.mover.state == EMovingKeyListingKeys then Begun(t) else t
  }

  function AfterCancel(s: System, e: Effect): System
    requires Sound(s.mover)
  {
    if !s.mover.active then s
    else
      var reply := Cancelled(Written(s.mover, s.stores, e));
      s.(mover := reply.mover, stores := Changed(s.mover, s.stores, e), answers := Answered(s, s.pending, reply.answer))
  }

  function Next(s: System, ev: Event): (t: System)
    requires Sound(s.mover) && Possible(s, ev)
    ensures Sound(t.mover)
  {
    match ev
    case Completion(status, e, leave) =>
      RanSound(Written(s.mover, s.stores, e), status, leave);
      AfterCompletion(s, status, e, leave)
    case MoveCall(leave) =>
      MovedSound(s.mover, leave);
      AfterMove(s, leave)
    case CancelCall(e) =>
      CancelledSound(Written(s.mover, s.stores, e));
      AfterCancel(s, e)
  }

  predicate Runs(s: System, events: seq<Event>)
    requires Sound(s.mover)
    decreases |events|
  {
    events == [] || (Possible(s, events[0]) && Runs(Next(s, events[0]), events[1..]))
  }

  function After(s: System, events: seq<Event>): (t: System)
    requires Sound(s.mover) && Runs(s, events)
    ensures Sound(t.mover)
    decreases |events|
  {
    if events == [] then s else After(Next(s, events[0]), events[1..])
  }

  /** A new mover beside any stores. */
  predicate Initial(s: System) {
    && Sound(s.mover) && s.mover.state == EInitializingCertStore && !s.mover.client && s.mover.certs == []
    && s.mover.ptrInBuffer
    && s.issued == 0 && s.answers == []
  }

  // -------------------------------------------------------------- nothing lost

  /** Every object that was in the source is still there or is in the target; the target
      has lost nothing and the source has gained nothing. */
  predicate Kept(source0: Objects, target0: Objects, source: Objects, target: Objects) {
    && (forall h :: h in source0 ==> (h in source && source[h] == source0[h]) || source0[h] in target.Values)
    && (forall h :: h in target0 ==> h in target && target[h] == target0[h])
    && (forall h :: h in source ==> h in source0 && source[h] == source0[h])
  }

  predicate KeysKept(w0: Stores, w: Stores) {
    Kept(w0.sourceKeys, w0.targetKeys, w.sourceKeys, w.targetKeys)
  }

  predicate CertsKept(w0: Stores, w: Stores) {
    Kept(w0.sourceCerts, w0.targetCerts, w.sourceCerts, w.targetCerts)
  }

  /** Certificates are lost only by a mover whose iDataPtr has lost its buffer. */
  predicate NothingLost(m: Mover, w0: Stores, w: Stores) {
    KeysKept(w0, w) && (m.ptrInBuffer ==> CertsKept(w0, w))
  }

  /** What makes the next deletion safe: the object about to be deleted is the one in the
      buffer, and while it is being deleted it has been imported or added. */
  predicate Guarded(m: Mover, w: Stores)
    requires Sound(m)
  {
    && (m.state == EMovingKeyImportingKeys || m.state == EMovingKeyDeletingOriginal ==>
      m.sourceKeyHandle in w.sourceKeys ==> w.sourceKeys[m.sourceKeyHandle] == m.buffer)
    && (m.state == EMovingKeyDeletingOriginal ==> m.buffer in w.targetKeys.Values)
    && Listed(m.certs, w)
    && (m.state == EMovingCertAddingCerts && m.ptrInBuffer ==> m.buffer == m.certs[m.certIndex].identity)
    && (m.state == EMovingCertDeletingOriginal && m.ptrInBuffer ==>
      m.certs[m.certIndex].identity in w.targetCerts.Values)
  }

  lemma InsertKeeps(source0: Objects, target0: Objects, source: Objects, target: Objects,
    h: Handle, v: Identity)
    requires Kept(source0, target0, source, target) && h !in target
    ensures Kept(source0, target0, source, target[h := v]) && v in target[h := v].Values
    ensures target.Values <= target[h := v].Values
  {
    assert target[h := v][h] == v;
    forall x | x in target.Values ensures x in target[h := v].Values {
      var k :| k in target && target[k] == x;
      assert target[h := v][k] == x;
    }
  }

  lemma RemoveKeeps(source0: Objects, target0: Objects, source: Objects, target: Objects,
    h: Handle)
    requires Kept(source0, target0, source, target)
    requires h in source ==> source[h] in target.Values
    ensures Kept(source0, target0, source - {h}, target)
  {
  }

  /** The effect of any request, completed, failed or cancelled, loses nothing. */
  lemma ChangeKeeps(m: Mover, w0: Stores, w: Stores, e: Effect)
    requires Sound(m) && Guarded(m, w) && EffectPossible(m, w, e) && NothingLost(m, w0, w)
    ensures NothingLost(m, w0, Changed(m, w, e))
    ensures m.state == EMovingKeyImportingKeys && e.happened ==> m.buffer in Changed(m, w, e).targetKeys.Values
    ensures m.state == EMovingCertAddingCerts && e.happened ==> m.buffer in Changed(m, w, e).targetCerts.Values
  {
    hide Kept;
    if e.happened {
      if m.state == EMovingKeyImportingKeys {
        InsertKeeps(w0.sourceKeys, w0.targetKeys, w.sourceKeys, w.targetKeys, e.handle, m.buffer);
      } else if m.state == EMovingKeyDeletingOriginal {
        RemoveKeeps(w0.sourceKeys, w0.targetKeys, w.sourceKeys, w.targetKeys, m.sourceKeyHandle);
      } else if m.state == EMovingCertAddingCerts {
        SelfKept(w);
        InsertKeeps(w.sourceCerts, w.targetCerts, w.sourceCerts, w.targetCerts, e.handle, m.buffer);
        if m.ptrInBuffer {
          InsertKeeps(w0.sourceCerts, w0.targetCerts, w.sourceCerts, w.targetCerts, e.handle, m.buffer);
        }
      } else if m.state == EMovingCertDeletingOriginal && m.ptrInBuffer {
        RemoveKeeps(w0.sourceCerts, w0.targetCerts, w.sourceCerts, w.targetCerts, m.certs[m.certIndex].handle);
      }
    }
  }

  /** The target never loses anything. */
  lemma TargetGrows(m: Mover, w: Stores, e: Effect)
    requires Sound(m) && EffectPossible(m, w, e)
    ensures w.targetKeys.Values <= Changed(m, w, e).targetKeys.Values
    ensures w.targetCerts.Values <= Changed(m, w, e).targetCerts.Values
  {
    hide Kept;
    SelfKept(w);
    if e.happened {
      if m.state == EMovingKeyImportingKeys {
        InsertKeeps(w.sourceKeys, w.targetKeys, w.sourceKeys, w.targetKeys, e.handle, m.buffer);
      } else if m.state == EMovingCertAddingCerts {
        InsertKeeps(w.sourceCerts, w.targetCerts, w.sourceCerts, w.targetCerts, e.handle, m.buffer);
      }
    }
  }

  /** After the effect of a request nothing still to be deleted is unprotected. */
  lemma GuardedAfterCompletion(s: System, status: int, e: Effect, leave: int)
    requires Sound(s.mover) && Possible(s, Completion(status, e, leave)) && Guarded(s.mover, s.stores)
    ensures Sound(Next(s, Completion(status, e, leave)).mover)
    ensures Guarded(Next(s, Completion(status, e, leave)).mover, Next(s, Completion(status, e, leave)).stores)
  {
    hide NothingLost, AfterCompletion, Ran, EffectPossible;
    SelfLost(s.mover, s.stores);
    ChangeKeeps(s.mover, s.stores, s.stores, e);
    var m := Written(s.mover, s.stores, e);
    RanSound(m, status, leave);
    ListedStays(s.mover, s.stores, e);
    CompletionParts(s, status, e, leave);
    if status >= 0 && s.mover.state == EMovingCertRetrievingCerts {
      RetrieveRead(s.mover, s.stores, e);
    }
    if status >= 0 && s.mover.state == EMovingKeyExportingKeys {
      assert m.keys[m.keyIndex] in s.stores.sourceKeys by { ExportRead(s.mover, s.stores, e); }
    }
    PhaseOrder(m, status, leave);
  }

  lemma CompletionParts(s: System, status: int, e: Effect, leave: int)
    requires Sound(s.mover) && s.mover.active
    ensures var t := AfterCompletion(s, status, e, leave);
      t.mover == Ran(Written(s.mover, s.stores, e), status, leave).mover && t.stores == Changed(s.mover, s.stores, e)
  {
    hide Ran, Written, Changed;
  }

  lemma ExportRead(m: Mover, w: Stores, e: Effect)
    requires Sound(m) && m.state == EMovingKeyExportingKeys && EffectPossible(m, w, e) && e.happened
    ensures m.keys[m.keyIndex] in w.sourceKeys
    ensures Written(m, w, e)
      == m.(buffer := w.sourceKeys[m.keys[m.keyIndex]], ptrInBuffer := m.ptrInBuffer && !e.replaced)
  {
  }

  /** A certificate that has been retrieved is what will be added exactly when iDataPtr still
      has its buffer, or the buffer happens to hold the same octets. */
  lemma RetrieveRead(m: Mover, w: Stores, e: Effect)
    requires Sound(m) && m.state == EMovingCertRetrievingCerts && EffectPossible(m, w, e) && e.happened
    requires Listed(m.certs, w)
    ensures var identity := m.certs[m.certIndex].identity;
      Written(m, w, e).buffer == identity <==> m.ptrInBuffer || m.buffer == identity
  {
  }

  /** What a request writes or does keeps the listed certificates true to the source. */
  lemma ListedStays(m: Mover, w: Stores, e: Effect)
    requires Sound(m) && EffectPossible(m, w, e) && Listed(m.certs, w)
    ensures Listed(Written(m, w, e).certs, Changed(m, w, e))
    ensures m.state != EMovingCertListingCerts ==> Written(m, w, e).certs == m.certs
    ensures Written(m, w, e).certIndex == m.certIndex && Written(m, w, e).sourceKeyHandle == m.sourceKeyHandle
    ensures m.state != EMovingKeyExportingKeys && m.state != EMovingCertRetrievingCerts ==>
      Written(m, w, e).buffer == m.buffer
    ensures Written(m, w, e).keyIndex == m.keyIndex
    ensures Written(m, w, e).ptrInBuffer ==> m.ptrInBuffer
    ensures m.state != EMovingKeyExportingKeys ==> Written(m, w, e).ptrInBuffer == m.ptrInBuffer
  {
  }

  /** The guarded states are entered only from the state before them. */
  lemma PhaseOrder(m: Mover, status: int, leave: int)
    requires Sound(m) && m.active
    ensures var r := Ran(m, status, leave).mover;
      && r.certs == m.certs && r.keys == m.keys && r.buffer == m.buffer && r.ptrInBuffer == m.ptrInBuffer
      && (r.state == EMovingKeyImportingKeys ==>
        m.state == EMovingKeyExportingKeys && status >= 0 && r.sourceKeyHandle == m.keys[m.keyIndex]
          && r.keyIndex == m.keyIndex)
      && (r.state == EMovingKeyDeletingOriginal ==>
        m.state == EMovingKeyImportingKeys && status >= 0 && r.sourceKeyHandle == m.sourceKeyHandle
          && r.keyIndex == m.keyIndex)
      && (r.state == EMovingCertAddingCerts ==>
        m.state == EMovingCertRetrievingCerts && status >= 0 && r.certIndex == m.certIndex)
      && (r.state == EMovingCertDeletingOriginal ==>
        m.state == EMovingCertAddingCerts && status >= 0 && r.certIndex == m.certIndex)
  {
    if status < 0 {
    } else if m.state == EMovingKeyListingKeys || m.state == EMovingKeyDeletingOriginal {
    } else if m.state == EMovingCertListingCerts || m.state == EMovingCertDeletingOriginal {
    } else {
    }
  }

  lemma SelfKept(w: Stores)
    ensures KeysKept(w, w) && CertsKept(w, w)
  {
  }

  lemma SelfLost(m: Mover, w: Stores)
    ensures NothingLost(m, w, w)
  {
    SelfKept(w);
  }

  lemma LostLater(m: Mover, n: Mover, w0: Stores, w: Stores)
    requires NothingLost(m, w0, w) && (n.ptrInBuffer ==> m.ptrInBuffer)
    ensures NothingLost(n, w0, w)
  {
  }

  /** Only an export that puts a new buffer in its place takes the buffer from iDataPtr. */
  lemma WrittenPtr(m: Mover, w: Stores, e: Effect)
    requires Sound(m) && EffectPossible(m, w, e)
    ensures Written(m, w, e).ptrInBuffer <==>
      m.ptrInBuffer && !(m.state == EMovingKeyExportingKeys && e.happened && e.replaced)
  {
  }

  lemma PtrStep(s: System, ev: Event)
    requires Sound(s.mover) && Possible(s, ev)
    ensures Next(s, ev).mover.ptrInBuffer <==> s.mover.ptrInBuffer && !ReplacesBuffer(s, ev)
  {
    hide Changed, Ran, Written, AfterCompletion;
    match ev
    case Completion(status, e, leave) =>
      CompletionParts(s, status, e, leave);
      WrittenPtr(s.mover, s.stores, e);
      PhaseOrder(Written(s.mover, s.stores, e), status, leave);
    case MoveCall(_) =>
    case CancelCall(e) =>
      if s.mover.active {
        WrittenPtr(s.mover, s.stores, e);
      }
  }

  predicate ReplacesBuffer(s: System, ev: Event)
    requires Sound(s.mover)
  {
    && s.mover.state == EMovingKeyExportingKeys
    && !ev.MoveCall? && ev.effect.happened && ev.effect.replaced
  }

  lemma StepKeeps(s: System, ev: Event, w0: Stores)
    requires Sound(s.mover) && Possible(s, ev) && Guarded(s.mover, s.stores) && NothingLost(s.mover, w0, s.stores)
    ensures Guarded(Next(s, ev).mover, Next(s, ev).stores)
    ensures NothingLost(Next(s, ev).mover, w0, Next(s, ev).stores)
  {
    hide NothingLost, AfterCompletion, EffectPossible, Changed, Listed, ReplacesBuffer;
    PtrStep(s, ev);
    match ev
    case Completion(status, e, leave) =>
      GuardedAfterCompletion(s, status, e, leave);
      CompletionParts(s, status, e, leave);
      ChangeKeeps(s.mover, w0, s.stores, e);
      LostLater(s.mover, Next(s, ev).mover, w0, Next(s, ev).stores);
    case MoveCall(leave) =>
      LostLater(s.mover, Next(s, ev).mover, w0, s.stores);
    case CancelCall(e) =>
      if s.mover.active {
        ListedStays(s.mover, s.stores, e);
        ChangeKeeps(s.mover, w0, s.stores, e);
        LostLater(s.mover, Next(s, ev).mover, w0, Next(s, ev).stores);
      }
  }

  /** An export that took place has put a new buffer in place of iDataBuffer. */
  predicate BufferReplaced(s: System, events: seq<Event>)
    requires Sound(s.mover) && Runs(s, events)
    decreases |events|
  {
    events != [] && (ReplacesBuffer(s, events[0]) || BufferReplaced(Next(s, events[0]), events[1..]))
  }

  lemma {:induction false} RunKeeps(s: System, events: seq<Event>, w0: Stores)
    requires Sound(s.mover) && Runs(s, events) && Guarded(s.mover, s.stores) && NothingLost(s.mover, w0, s.stores)
    ensures NothingLost(After(s, events).mover, w0, After(s, events).stores)
    ensures After(s, events).mover.ptrInBuffer <==> s.mover.ptrInBuffer && !BufferReplaced(s, events)
    decreases |events|
  {
    hide NothingLost, Guarded, Possible, Next, ReplacesBuffer;
    if events != [] {
      StepKeeps(s, events[0], w0);
      PtrStep(s, events[0]);
      RunKeeps(Next(s, events[0]), events[1..], w0);
    }
  }

  // --------------------------------------------------- what the target receives

  function Handles(certs: seq<CertInfo>): set<Handle> {
    set c | c in certs :: c.handle
  }

  function Identities(certs: seq<CertInfo>): set<Identity> {
    set c | c in certs :: c.identity
  }

  /** What the additions for the first n listed certificates leave in the target: those
      certificates, or for all of them the one object of a buffer that iDataPtr has lost. */
  function Copies(m: Mover, n: nat): set<Identity>
    requires n <= |m.certs|
  {
    if m.ptrInBuffer then Identities(m.certs[..n]) else if n == 0 then {} else {m.buffer}
  }

  /** Of the listed certificates, which the source held when the move began, the first so
      many have been retrieved, added and removed, and nothing else has become of the
      certificates of either store. */
  predicate Exchanged(s: System, retrieved: nat, added: nat, removed: nat)
    requires retrieved <= |s.mover.certs| && added <= |s.mover.certs| && removed <= |s.mover.certs|
  {
    && Listed(s.mover.certs, s.atStart)
    && (forall i :: 0 <= i < retrieved ==> s.mover.certs[i].handle in s.atStart.sourceCerts)
    && s.stores.sourceCerts == s.atStart.sourceCerts - Handles(s.mover.certs[..removed])
    && (forall h :: h in s.atStart.targetCerts ==>
      h in s.stores.targetCerts && s.stores.targetCerts[h] == s.atStart.targetCerts[h])
    && s.stores.targetCerts.Values == s.atStart.targetCerts.Values + Copies(s.mover, added)
  }

  predicate AllExchanged(s: System) {
    Exchanged(s, |s.mover.certs|, |s.mover.certs|, |s.mover.certs|)
  }

  predicate SameCerts(w: Stores, v: Stores) {
    w.sourceCerts == v.sourceCerts && w.targetCerts == v.targetCerts
  }

  /** How far the exchange of certificates has got in each state of a move. */
  predicate Exchanging(s: System)
    requires Sound(s.mover)
  {
    var n := s.mover.certIndex;
    match s.mover.state
    case EMovingCertRetrievingCerts => Exchanged(s, n, n, n)
    case EMovingCertAddingCerts => Exchanged(s, n + 1, n, n)
    case EMovingCertDeletingOriginal => Exchanged(s, n + 1, n + 1, n)
    case _ => Moving(s.mover.state) ==> SameCerts(s.stores, s.atStart)
  }

  lemma OneMore(certs: seq<CertInfo>, n: nat)
    requires n < |certs|
    ensures Handles(certs[..n + 1]) == Handles(certs[..n]) + {certs[n].handle}
    ensures Identities(certs[..n + 1]) == Identities(certs[..n]) + {certs[n].identity}
  {
    assert certs[..n + 1] == certs[..n] + [certs[n]];
  }

  lemma ValuesAdded(target: Objects, h: Handle, v: Identity)
    requires h !in target
    ensures target[h := v].Values == target.Values + {v}
  {
    assert target[h := v][h] == v;
    forall x | x in target.Values ensures x in target[h := v].Values {
      var k :| k in target && target[k] == x;
      assert target[h := v][k] == x;
    }
  }

  lemma ExchangeFromListing(s: System, status: int, e: Effect, leave: int)
    requires Sound(s.mover) && Possible(s, Completion(status, e, leave)) && Exchanging(s)
    requires s.mover.state == EMovingCertListingCerts
    ensures var t := Next(s, Completion(status, e, leave));
      && Exchanging(t)
      && (status >= 0 && t.answers != s.answers ==> AllExchanged(t))
  {
    var t := Next(s, Completion(status, e, leave));
    assert t.stores == s.stores && t.atStart == s.atStart;
    assert e.certs[..0] == [];
    assert s.atStart.sourceCerts - {} == s.atStart.sourceCerts;
  }

  lemma ExchangeFromRetrieving(s: System, status: int, e: Effect, leave: int)
    requires Sound(s.mover) && Possible(s, Completion(status, e, leave)) && Exchanging(s)
    requires s.mover.state == EMovingCertRetrievingCerts
    ensures var t := Next(s, Completion(status, e, leave)); Exchanging(t) && (status >= 0 ==> t.answers == s.answers)
  {
    var t := Next(s, Completion(status, e, leave));
    assert t.stores == s.stores && t.atStart == s.atStart;
    if status >= 0 {
      assert t.mover.certs == s.mover.certs && t.mover.certIndex == s.mover.certIndex;
      assert Copies(t.mover, t.mover.certIndex) == Copies(s.mover, s.mover.certIndex);
    }
  }

  lemma AddedExchanged(s: System, t: System, e: Effect)
    requires Sound(s.mover) && EffectPossible(s.mover, s.stores, e) && Exchanging(s) && Guarded(s.mover, s.stores)
    requires s.mover.state == EMovingCertAddingCerts && e.happened
    requires t.stores == Changed(s.mover, s.stores, e) && t.atStart == s.atStart && t.mover.certs == s.mover.certs
    requires t.mover.buffer == s.mover.buffer && t.mover.ptrInBuffer == s.mover.ptrInBuffer
    ensures var n := s.mover.certIndex; Exchanged(t, n + 1, n + 1, n)
  {
    OneMore(s.mover.certs, s.mover.certIndex);
    ValuesAdded(s.stores.targetCerts, e.handle, s.mover.buffer);
  }

  lemma ExchangeFromAdding(s: System, status: int, e: Effect, leave: int)
    requires Sound(s.mover) && Possible(s, Completion(status, e, leave)) && Exchanging(s) && Guarded(s.mover, s.stores)
    requires s.mover.state == EMovingCertAddingCerts
    ensures var t := Next(s, Completion(status, e, leave)); Exchanging(t) && (status >= 0 ==> t.answers == s.answers)
  {
    hide Exchanged, Changed, Guarded, EffectPossible;
    if status >= 0 {
      AddedExchanged(s, Next(s, Completion(status, e, leave)), e);
    }
  }

  lemma ExchangeFromRemoving(s: System, status: int, e: Effect, leave: int)
    requires Sound(s.mover) && Possible(s, Completion(status, e, leave)) && Exchanging(s)
    requires s.mover.state == EMovingCertDeletingOriginal
    ensures var t := Next(s, Completion(status, e, leave));
      && Exchanging(t)
      && (status >= 0 && t.answers != s.answers ==> AllExchanged(t))
  {
    hide AfterCompletion, Exchanged, Changed;
    var t := Next(s, Completion(status, e, leave));
    RemovingStep(s, status, e, leave);
    if status >= 0 {
      RemovedExchanged(s, t, e);
    }
  }

  lemma RemovedExchanged(s: System, t: System, e: Effect)
    requires Sound(s.mover) && Exchanging(s) && s.mover.state == EMovingCertDeletingOriginal && e.happened
    requires t.stores == Changed(s.mover, s.stores, e) && t.atStart == s.atStart && t.mover.certs == s.mover.certs
    requires t.mover.buffer == s.mover.buffer && t.mover.ptrInBuffer == s.mover.ptrInBuffer
    ensures var n := s.mover.certIndex + 1; Exchanged(t, n, n, n)
  {
    OneMore(s.mover.certs, s.mover.certIndex);
  }

  lemma ExchangeElsewhere(s: System, status: int, e: Effect, leave: int)
    requires Sound(s.mover) && Possible(s, Completion(status, e, leave)) && Exchanging(s)
    requires !MovingCert(s.mover.state) && s.mover.state != EMovingCertListingCerts
    ensures Exchanging(Next(s, Completion(status, e, leave)))
  {
    hide EffectPossible, Exchanged;
  }

  lemma ExchangeStep(s: System, ev: Event)
    requires Sound(s.mover) && Possible(s, ev) && Guarded(s.mover, s.stores) && Exchanging(s)
    ensures Exchanging(Next(s, ev))
  {
    hide EffectPossible, Exchanged, Guarded, AfterCompletion;
    match ev
    case Completion(status, e, leave) =>
      if s.mover.state == EMovingCertListingCerts {
        ExchangeFromListing(s, status, e, leave);
      } else if s.mover.state == EMovingCertRetrievingCerts {
        ExchangeFromRetrieving(s, status, e, leave);
      } else if s.mover.state == EMovingCertAddingCerts {
        ExchangeFromAdding(s, status, e, leave);
      } else if s.mover.state == EMovingCertDeletingOriginal {
        ExchangeFromRemoving(s, status, e, leave);
      } else {
        ExchangeElsewhere(s, status, e, leave);
      }
    case MoveCall(leave) => ExchangeAfterMove(s, leave);
    case CancelCall(e) => ExchangeAfterCancel(s, e);
  }

  lemma ExchangeAfterMove(s: System, leave: int)
    requires Sound(s.mover) && Exchanging(s)
    ensures Exchanging(Next(s, MoveCall(leave)))
  {
  }

  lemma ExchangeAfterCancel(s: System, e: Effect)
    requires Sound(s.mover) && Possible(s, CancelCall(e)) && Exchanging(s)
    ensures Exchanging(Next(s, CancelCall(e)))
  {
    hide Exchanged;
  }

  /** Once every listed certificate has been exchanged, the target holds one of them exactly
      when iDataPtr still describes the buffer, or the target held it before, or it is what
      the buffer holds. */
  lemma ListedInTarget(s: System, c: CertInfo)
    requires AllExchanged(s) && c in s.mover.certs
    ensures c.identity in s.stores.targetCerts.Values <==>
      s.mover.ptrInBuffer || c.identity in s.atStart.targetCerts.Values || c.identity == s.mover.buffer
  {
    assert s.mover.certs[..|s.mover.certs|] == s.mover.certs;
  }

  /** What becomes of the listed certificates: iDataPtr describes the buffer they are added
      from, or each was in the target before the move or happens to be what the buffer holds. */
  predicate BufferServes(s: System) {
    || s.mover.ptrInBuffer
    || forall c :: c in s.mover.certs ==> c.identity in s.atStart.targetCerts.Values || c.identity == s.mover.buffer
  }

  /** The move has then kept every certificate of either store exactly when that is so. */
  lemma MovedCertsKept(s: System)
    requires AllExchanged(s)
    ensures CertsKept(s.atStart, s.stores) <==> BufferServes(s)
  {
    hide Copies;
    forall c | c in s.mover.certs
      ensures c.identity in s.stores.targetCerts.Values <==>
        s.mover.ptrInBuffer || c.identity in s.atStart.targetCerts.Values || c.identity == s.mover.buffer
      ensures c.handle in s.atStart.sourceCerts && s.atStart.sourceCerts[c.handle] == c.identity
      ensures c.handle !in s.stores.sourceCerts
    {
      ListedInTarget(s, c);
      assert s.mover.certs[..|s.mover.certs|] == s.mover.certs;
    }
    forall h | h in s.atStart.sourceCerts && h !in s.stores.sourceCerts
      ensures exists c :: c in s.mover.certs && c.handle == h
    {
    }
  }

  // --------------------------------------------------------- certificates kept

  /** A certificate is removed of which the target has no copy: iDataPtr has lost the
      buffer, which holds something else, and the target did not hold it before the move. */
  predicate RemovesUnsaved(s: System, ev: Event)
    requires Sound(s.mover)
  {
    && s.mover.state == EMovingCertDeletingOriginal && !s.mover.ptrInBuffer
    && !ev.MoveCall? && ev.effect.happened
    && var c := s.mover.certs[s.mover.certIndex];
      && c.handle in s.stores.sourceCerts
      && c.identity !in s.atStart.targetCerts.Values && c.identity != s.mover.buffer
  }

  predicate LosesCertificate(s: System, events: seq<Event>)
    requires Sound(s.mover) && Runs(s, events)
    decreases |events|
  {
    events != [] && (RemovesUnsaved(s, events[0]) || LosesCertificate(Next(s, events[0]), events[1..]))
  }

  /** At every moment of the run the certificates of w0 are in either store. */
  predicate AlwaysKept(s: System, events: seq<Event>, w0: Stores)
    requires Sound(s.mover) && Runs(s, events)
    decreases |events|
  {
    CertsKept(w0, s.stores) && (events != [] ==> AlwaysKept(Next(s, events[0]), events[1..], w0))
  }

  /** The certificate about to be removed is in the target exactly when that is safe. */
  lemma SavedExact(s: System)
    requires Sound(s.mover) && Exchanging(s) && s.mover.state == EMovingCertDeletingOriginal
    ensures var c := s.mover.certs[s.mover.certIndex];
      c.identity in s.stores.targetCerts.Values <==>
      s.mover.ptrInBuffer || c.identity in s.atStart.targetCerts.Values || c.identity == s.mover.buffer
  {
    var m := s.mover;
    OneMore(m.certs, m.certIndex);
  }

  lemma CertsChange(m: Mover, w0: Stores, w: Stores, e: Effect)
    requires Sound(m) && EffectPossible(m, w, e) && Listed(m.certs, w) && CertsKept(w0, w)
    ensures CertsKept(w0, Changed(m, w, e)) <==>
      !(m.state == EMovingCertDeletingOriginal && e.happened && m.certs[m.certIndex].handle in w.sourceCerts
        && m.certs[m.certIndex].identity !in w.targetCerts.Values)
  {
    if e.happened {
      if m.state == EMovingCertAddingCerts {
        InsertKeeps(w0.sourceCerts, w0.targetCerts, w.sourceCerts, w.targetCerts, e.handle, m.buffer);
      } else if m.state == EMovingCertDeletingOriginal {
        var c := m.certs[m.certIndex];
        if c.handle in w.sourceCerts {
          assert c.handle in w0.sourceCerts && w0.sourceCerts[c.handle] == c.identity;
        }
      }
    }
  }

  lemma CertsStep(s: System, ev: Event, w0: Stores)
    requires Sound(s.mover) && Possible(s, ev) && Guarded(s.mover, s.stores) && Exchanging(s) && CertsKept(w0, s.stores)
    ensures CertsKept(w0, Next(s, ev).stores) <==> !RemovesUnsaved(s, ev)
  {
    hide CertsKept, EffectPossible, Exchanged, Changed, AfterCompletion, Exchanging;
    if s.mover.state == EMovingCertDeletingOriginal {
      SavedExact(s);
    }
    match ev
    case Completion(status, e, leave) =>
      CompletionParts(s, status, e, leave);
      CertsChange(s.mover, w0, s.stores, e);
    case MoveCall(_) =>
    case CancelCall(e) =>
      if s.mover.active {
        CertsChange(s.mover, w0, s.stores, e);
      }
  }

  lemma {:induction false} KeptOverRuns(s: System, events: seq<Event>, w0: Stores)
    requires Sound(s.mover) && Runs(s, events) && Guarded(s.mover, s.stores) && Exchanging(s) && CertsKept(w0, s.stores)
    ensures AlwaysKept(s, events, w0) <==> !LosesCertificate(s, events)
    decreases |events|
  {
    hide Guarded, Exchanging, CertsKept, Possible, Next, RemovesUnsaved;
    if events != [] {
      var t := Next(s, events[0]);
      CertsStep(s, events[0], w0);
      if CertsKept(w0, t.stores) {
        SelfLost(s.mover, s.stores);
        StepKeeps(s, events[0], s.stores);
        ExchangeStep(s, events[0]);
        KeptOverRuns(t, events[1..], w0);
      }
    }
  }

  /** Whatever fails, is cancelled or is carried out half: at every moment of every run
      each key that was in the source is in the source or in the target; and each
      certificate is, in exactly the runs that never remove one which an export's new
      buffer has kept from being retrieved and which the target did not hold anyway. */
  lemma NothingIsLost(s: System, events: seq<Event>)
    requires Initial(s) && Runs(s, events)
    ensures KeysKept(s.stores, After(s, events).stores)
    ensures AlwaysKept(s, events, s.stores) <==> !LosesCertificate(s, events)
    ensures !BufferReplaced(s, events) ==> CertsKept(s.stores, After(s, events).stores)
  {
    hide Kept;
    SelfKept(s.stores);
    SelfLost(s.mover, s.stores);
    RunKeeps(s, events, s.stores);
    KeptOverRuns(s, events, s.stores);
  }

  // ------------------------------------------------- answered once, and in time

  /** Each call is answered at most once, and all calls but the stored one have been. */
  predicate AnsweredOnce(s: System) {
    && (forall i, j :: 0 <= i < j < |s.answers| ==> s.answers[i].client != s.answers[j].client)
    && (forall i :: 0 <= i < |s.answers| ==> s.answers[i].client < s.issued)
    && (s.mover.client ==> s.pending < s.issued && !HasAnswer(s, s.pending))
    && (forall c :: 0 <= c < s.issued ==> HasAnswer(s, c) || (s.mover.client && c == s.pending))
  }

  predicate HasAnswer(s: System, client: nat) {
    exists i :: 0 <= i < |s.answers| && s.answers[i].client == client
  }

  /** Adding the answer of a client that has none yet. */
  lemma AnswerAdded(s: System, client: nat, code: int, t: System)
    requires AnsweredOnce(s) && !HasAnswer(s, client)
    requires t.answers == s.answers + [Answer(client, code)] && client < t.issued
    requires t.issued == s.issued || (t.issued == s.issued + 1 && client == s.issued)
    requires if client == s.issued then t.mover.client == s.mover.client && t.pending == s.pending
      else s.mover.client && client == s.pending && !t.mover.client
    ensures AnsweredOnce(t)
  {
    forall c | 0 <= c < t.issued ensures HasAnswer(t, c) || (t.mover.client && c == t.pending) {
      if c == client {
        assert t.answers[|s.answers|].client == c;
      } else if HasAnswer(s, c) {
        var i :| 0 <= i < |s.answers| && s.answers[i].client == c;
        assert t.answers[i].client == c;
      }
    }
    assert t.mover.client && HasAnswer(t, t.pending) ==> HasAnswer(s, t.pending);
  }

  lemma AnswersStep(s: System, ev: Event)
    requires Sound(s.mover) && Possible(s, ev) && AnsweredOnce(s)
    ensures AnsweredOnce(Next(s, ev))
  {
    hide AnsweredOnce, AfterCompletion, AfterMove, AfterCancel, EffectPossible;
    match ev
    case Completion(status, e, leave) => AnswersAfterCompletion(s, status, e, leave);
    case MoveCall(leave) => AnswersAfterMove(s, leave);
    case CancelCall(e) => AnswersAfterCancel(s, e);
  }

  lemma AnswersAfterCompletion(s: System, status: int, e: Effect, leave: int)
    requires Sound(s.mover) && s.mover.active && AnsweredOnce(s)
    ensures AnsweredOnce(AfterCompletion(s, status, e, leave))
  {
    hide AnsweredOnce, Ran, HasAnswer, Written, Changed, Sound;
    NewClient(s);
    var t := AfterCompletion(s, status, e, leave);
    var m := Written(s.mover, s.stores, e);
    RanSound(m, status, leave);
    var reply := Ran(m, status, leave);
    if reply.answer.Some? {
      AnswerAdded(s, s.pending, reply.answer.value, t);
    } else {
      SameAnswers(s, t);
    }
  }

  lemma AnswersAfterMove(s: System, leave: int)
    requires Sound(s.mover) && AnsweredOnce(s)
    ensures AnsweredOnce(AfterMove(s, leave))
  {
    hide AnsweredOnce, Moved, HasAnswer, Sound;
    NewClient(s);
    MovedSound(s.mover, leave);
    var reply := Moved(s.mover, leave);
    if reply.answer.Some? {
      AnswerAdded(s, s.issued, reply.answer.value, AfterMove(s, leave));
    } else {
      ClientStored(s, AfterMove(s, leave));
    }
  }

  lemma AnswersAfterCancel(s: System, e: Effect)
    requires Sound(s.mover) && AnsweredOnce(s)
    ensures AnsweredOnce(AfterCancel(s, e))
  {
    hide AnsweredOnce, Cancelled, HasAnswer, Written, Changed, Sound;
    NewClient(s);
    if s.mover.active {
      var m := Written(s.mover, s.stores, e);
      CancelledSound(m);
      var reply := Cancelled(m);
      if reply.answer.Some? {
        AnswerAdded(s, s.pending, reply.answer.value, AfterCancel(s, e));
      } else {
        SameAnswers(s, AfterCancel(s, e));
      }
    }
  }

  lemma NewClient(s: System)
    requires AnsweredOnce(s)
    ensures !HasAnswer(s, s.issued)
    ensures s.mover.client ==> s.pending < s.issued && !HasAnswer(s, s.pending)
  {
  }

  lemma SameAnswers(s: System, t: System)
    requires AnsweredOnce(s) && t.answers == s.answers && t.issued == s.issued && t.pending == s.pending
      && t.mover.client == s.mover.client
    ensures AnsweredOnce(t)
  {
    assert forall c :: HasAnswer(s, c) <==> HasAnswer(t, c);
  }

  lemma ClientStored(s: System, t: System)
    requires AnsweredOnce(s) && !s.mover.client
    requires t.answers == s.answers && t.issued == s.issued + 1 && t.pending == s.issued && t.mover.client
    ensures AnsweredOnce(t)
  {
    assert forall c :: HasAnswer(s, c) <==> HasAnswer(t, c);
    NewClient(s);
  }

  lemma {:induction false} AnswersOverRuns(s: System, events: seq<Event>)
    requires Sound(s.mover) && Runs(s, events) && AnsweredOnce(s)
    ensures AnsweredOnce(After(s, events))
    decreases |events|
  {
    hide AnsweredOnce, Possible, Next;
    if events != [] {
      AnswersStep(s, events[0]);
      AnswersOverRuns(Next(s, events[0]), events[1..]);
    }
  }

  /** In every run every call of Move has been answered exactly once, except for the one
      that is stored; and a stored client has a request outstanding for it, unless the
      initialisation was cancelled. */
  lemma EveryCallAnsweredOnce(s: System, events: seq<Event>)
    requires Initial(s) && Runs(s, events)
    ensures AnsweredOnce(After(s, events))
    ensures var m := After(s, events).mover; m.client ==> m.active || m.state == ENotInitialized
  {
    hide Runs, After;
    AnswersOverRuns(s, events);
  }

  /** No event but a Cancel while initialising leads to the state without a way out. */
  lemma NotInitializedOnlyByCancel(s: System, ev: Event)
    requires Sound(s.mover) && Possible(s, ev) && s.mover.state != ENotInitialized
    ensures Next(s, ev).mover.state == ENotInitialized <==> ev.CancelCall? && Initializing(s.mover.state)
  {
    hide EffectPossible, Changed, Written;
  }

  predicate Calls(events: seq<Event>) {
    exists i :: 0 <= i < |events| && events[i].MoveCall?
  }

  /** A Cancel was taken while initialising, and a call of Move followed. */
  predicate CalledAfterCancel(s: System, events: seq<Event>)
    requires Sound(s.mover) && Runs(s, events)
    decreases |events|
  {
    && events != []
    && ((events[0].CancelCall? && Initializing(s.mover.state) && Calls(events[1..]))
      || CalledAfterCancel(Next(s, events[0]), events[1..]))
  }

  /** Once there, the mover stays there, and the first call is stored. */
  lemma {:induction false} NotInitializedStays(s: System, events: seq<Event>)
    requires Sound(s.mover) && Runs(s, events) && s.mover.state == ENotInitialized
    ensures var m := After(s, events).mover; m.state == ENotInitialized && !m.active
    ensures After(s, events).mover.client <==> s.mover.client || Calls(events)
    ensures !CalledAfterCancel(s, events)
    decreases |events|
  {
    hide EffectPossible, Calls;
    CallsFirst(events);
    if events != [] {
      NotInitializedStays(Next(s, events[0]), events[1..]);
    }
  }

  lemma CallsFirst(events: seq<Event>)
    ensures Calls(events) <==> events != [] && (events[0].MoveCall? || Calls(events[1..]))
  {
    if i :| 1 <= i < |events| && events[i].MoveCall? {
      assert events[1..][i - 1].MoveCall?;
    }
  }

  lemma CancelledStep(s: System, ev: Event)
    requires Sound(s.mover) && Possible(s, ev) && ev.CancelCall? && Initializing(s.mover.state)
    ensures Next(s, ev).mover.state == ENotInitialized && !Next(s, ev).mover.client
  {
    hide EffectPossible;
  }

  lemma {:induction false} WaitsInVain(s: System, events: seq<Event>)
    requires Sound(s.mover) && Runs(s, events) && s.mover.state != ENotInitialized
    ensures var m := After(s, events).mover; m.client && !m.active <==> CalledAfterCancel(s, events)
    decreases |events|
  {
    hide Next, Possible, Calls;
    if events == [] {
      SoundParts(s.mover);
    } else {
      NotInitializedOnlyByCancel(s, events[0]);
      var t := Next(s, events[0]);
      if t.mover.state == ENotInitialized {
        CancelledStep(s, events[0]);
        NotInitializedStays(t, events[1..]);
      } else {
        WaitsInVain(t, events[1..]);
      }
    }
  }

  /** A waiting client has a request outstanding for it in exactly the runs in which no
      call of Move follows a Cancel taken while initialising. */
  lemma PendingMeansActive(s: System, events: seq<Event>)
    requires Initial(s) && Runs(s, events)
    ensures var m := After(s, events).mover; (m.client ==> m.active) <==> !CalledAfterCancel(s, events)
  {
    hide Runs, After;
    WaitsInVain(s, events);
  }

  /** The way out of a stored client is an outstanding request: after a Cancel while
      initialising a Move is accepted and never answered, whatever happens next. */
  lemma {:induction false} CancelledInitializationHangs(s: System, events: seq<Event>)
    requires Sound(s.mover) && s.mover.state == ENotInitialized && s.mover.client && AnsweredOnce(s) && Runs(s, events)
    ensures var t := After(s, events);
      t.mover.state == ENotInitialized && t.mover.client && t.pending == s.pending && !HasAnswer(t, s.pending)
    decreases |events|
  {
    hide AnsweredOnce, HasAnswer, EffectPossible;
    NewClient(s);
    if events != [] {
      AnswersStep(s, events[0]);
      CancelledInitializationHangs(Next(s, events[0]), events[1..]);
    }
  }

  /** Two events lead there from any new mover. */
  lemma CallAfterCancelHangs(s: System, e: Effect, leave: int, events: seq<Event>)
    requires Initial(s)
    ensures var run := [CancelCall(e), MoveCall(leave)];
      && Runs(s, run)
      && var t := After(s, run);
        && t.mover.state == ENotInitialized && t.mover.client && t.pending == 0 && AnsweredOnce(t)
        && (Runs(t, events) ==> !HasAnswer(After(t, events), 0))
  {
    hide AnsweredOnce, HasAnswer;
    var run := [CancelCall(e), MoveCall(leave)];
    var u := Next(s, run[0]);
    var t := Next(u, run[1]);
    assert run[1..] == [MoveCall(leave)] && run[1..][1..] == [];
    assert Runs(u, run[1..]) && After(u, run[1..]) == t;
    EveryCallAnsweredOnce(s, run);
    if Runs(t, events) {
      CancelledInitializationHangs(t, events);
    }
  }

  // ------------------------------------------------------- success and progress

  predicate KeyMoved(s: System, h: Handle) {
    && h in s.atStart.sourceKeys && h !in s.stores.sourceKeys
    && s.atStart.sourceKeys[h] in s.stores.targetKeys.Values
  }

  predicate CertRemoved(s: System, c: CertInfo) {
    c.handle !in s.stores.sourceCerts
  }

  predicate KeysMoved(s: System, n: nat)
    requires n <= |s.listed|
  {
    forall i :: 0 <= i < n ==> KeyMoved(s, s.listed[i])
  }

  predicate CertsRemoved(s: System, n: nat)
    requires n <= |s.mover.certs|
  {
    forall i :: 0 <= i < n ==> CertRemoved(s, s.mover.certs[i])
  }

  /** Key infos from index n on are as they were listed. */
  predicate Unread(s: System, n: nat) {
    |s.mover.keys| == |s.listed| && forall i :: n <= i < |s.listed| ==> s.mover.keys[i] == s.listed[i]
  }

  /** The key at the current index has been exported under the handle it was listed with. */
  predicate Exported(s: System)
    requires s.mover.keyIndex < |s.listed|
  {
    var h := s.listed[s.mover.keyIndex];
    s.mover.sourceKeyHandle == h && h in s.atStart.sourceKeys && s.atStart.sourceKeys[h] == s.mover.buffer
  }

  /** A buffer that iDataPtr has lost still holds the last listed key. */
  predicate LastKeyLeft(s: System) {
    s.listed != [] && !s.mover.ptrInBuffer ==>
      var h := s.listed[|s.listed| - 1];
      h in s.atStart.sourceKeys && s.atStart.sourceKeys[h] == s.mover.buffer
  }

  /** How far a move has got: what has been moved, and how many requests that took. */
  predicate Progress(s: System)
    requires Sound(s.mover)
  {
    && (Moving(s.mover.state) ==> forall h :: h in s.stores.sourceKeys ==>
      h in s.atStart.sourceKeys && s.atStart.sourceKeys[h] == s.stores.sourceKeys[h])
    && match s.mover.state
       case EMovingKeyListingKeys => s.completions == 0
       case EMovingKeyExportingKeys => KeyProgress(s, 1, 0)
       case EMovingKeyImportingKeys => KeyProgress(s, 2, 1) && Exported(s)
       case EMovingKeyDeletingOriginal =>
         KeyProgress(s, 3, 1) && Exported(s) && s.mover.buffer in s.stores.targetKeys.Values
       case EMovingCertListingCerts =>
         KeysMoved(s, |s.listed|) && LastKeyLeft(s) && s.completions == 1 + 3 * |s.listed|
       case EMovingCertRetrievingCerts => CertProgress(s, 2)
       case EMovingCertAddingCerts => CertProgress(s, 3)
       case EMovingCertDeletingOriginal => CertProgress(s, 4)
       case _ => true
  }

  predicate KeyProgress(s: System, base: nat, read: nat)
    requires MovingKey(s.mover.state) && Sound(s.mover)
  {
    && Unread(s, s.mover.keyIndex + read) && s.mover.keyIndex < |s.listed|
    && KeysMoved(s, s.mover.keyIndex) && s.completions == base + 3 * s.mover.keyIndex
  }

  predicate CertProgress(s: System, base: nat)
    requires MovingCert(s.mover.state) && Sound(s.mover)
  {
    && KeysMoved(s, |s.listed|) && LastKeyLeft(s) && CertsRemoved(s, s.mover.certIndex)
    && s.completions == base + 3 * |s.listed| + 3 * s.mover.certIndex
  }

  /** All listed keys have been moved and all listed certificates are out of the source,
      after exactly so many requests. */
  predicate AllTaken(s: System) {
    && KeysMoved(s, |s.listed|) && LastKeyLeft(s) && CertsRemoved(s, |s.mover.certs|)
    && s.completions == 2 + 3 * |s.listed| + 3 * |s.mover.certs|
  }

  /** The same, and the certificates that the move was to take and to leave are what the
      stores hold. */
  predicate AllMoved(s: System) {
    AllTaken(s) && AllExchanged(s)
  }

  /** Objects that have been moved stay moved through any further request. */
  lemma MovedStays(s: System, t: System, e: Effect)
    requires Sound(s.mover) && EffectPossible(s.mover, s.stores, e) && Guarded(s.mover, s.stores)
    requires t.stores == Changed(s.mover, s.stores, e) && t.atStart == s.atStart
    ensures forall h :: KeyMoved(s, h) ==> KeyMoved(t, h)
    ensures forall c :: CertRemoved(s, c) ==> CertRemoved(t, c)
    ensures t.stores.sourceKeys.Keys <= s.stores.sourceKeys.Keys
    ensures forall h :: h in t.stores.sourceKeys ==> t.stores.sourceKeys[h] == s.stores.sourceKeys[h]
  {
    hide Kept;
    TargetGrows(s.mover, s.stores, e);
  }

  lemma ProgressFromListing(s: System, status: int, e: Effect, leave: int)
    requires Sound(s.mover) && Possible(s, Completion(status, e, leave)) && Progress(s)
    requires s.mover.state == EMovingKeyListingKeys
    ensures Progress(Next(s, Completion(status, e, leave)))
  {
    hide EffectPossible, KeyMoved, CertRemoved;
    var t := Next(s, Completion(status, e, leave));
    assert t.stores == s.stores;
  }

  lemma ProgressFromExporting(s: System, status: int, e: Effect, leave: int)
    requires Sound(s.mover) && Possible(s, Completion(status, e, leave)) && Progress(s)
    requires s.mover.state == EMovingKeyExportingKeys
    ensures Progress(Next(s, Completion(status, e, leave)))
  {
    hide EffectPossible, KeyMoved, CertRemoved;
    var t := Next(s, Completion(status, e, leave));
    assert t.stores == s.stores;
    if status >= 0 {
      ExportRead(s.mover, s.stores, e);
      assert forall h :: KeyMoved(s, h) ==> KeyMoved(t, h) by { SameStores(s, t); }
    }
  }

  lemma SameStores(s: System, t: System)
    requires s.stores == t.stores && s.atStart == t.atStart
    ensures forall h :: KeyMoved(s, h) ==> KeyMoved(t, h)
    ensures forall c :: CertRemoved(s, c) ==> CertRemoved(t, c)
  {
  }

  lemma ProgressFromImporting(s: System, status: int, e: Effect, leave: int)
    requires Sound(s.mover) && Possible(s, Completion(status, e, leave)) && Guarded(s.mover, s.stores) && Progress(s)
    requires s.mover.state == EMovingKeyImportingKeys
    ensures Progress(Next(s, Completion(status, e, leave)))
  {
    hide EffectPossible, KeyMoved, CertRemoved, Guarded;
    var t := Next(s, Completion(status, e, leave));
    if status >= 0 {
      MovedStays(s, t, e);
      assert s.mover.buffer in t.stores.targetKeys.Values by {
        SelfLost(s.mover, s.stores);
        ChangeKeeps(s.mover, s.stores, s.stores, e);
      }
    }
  }

  lemma DeletingStep(s: System, status: int, e: Effect, leave: int)
    requires Sound(s.mover) && s.mover.state == EMovingKeyDeletingOriginal
    ensures var t := AfterCompletion(s, status, e, leave);
      && t.stores == Changed(s.mover, s.stores, e) && t.atStart == s.atStart && t.listed == s.listed
      && t.completions == s.completions + 1 && t.mover.keys == s.mover.keys
      && t.mover.ptrInBuffer == s.mover.ptrInBuffer && t.mover.buffer == s.mover.buffer
      && (Moving(t.mover.state) ==> status >= 0 && t.mover.keyIndex == s.mover.keyIndex + 1)
      && (Moving(t.mover.state) ==>
        t.mover.state == if t.mover.keyIndex < |s.mover.keys| then EMovingKeyExportingKeys else EMovingCertListingCerts)
  {
    hide Changed;
  }

  lemma ProgressFromDeleting(s: System, status: int, e: Effect, leave: int)
    requires Sound(s.mover) && Possible(s, Completion(status, e, leave)) && Guarded(s.mover, s.stores) && Progress(s)
    requires s.mover.state == EMovingKeyDeletingOriginal
    ensures Progress(Next(s, Completion(status, e, leave)))
  {
    hide EffectPossible, KeyMoved, CertRemoved, Guarded, AfterCompletion, Changed;
    var t := Next(s, Completion(status, e, leave));
    DeletingStep(s, status, e, leave);
    if Moving(t.mover.state) {
      MovedStays(s, t, e);
      DeletedKeyMoved(s, t, e);
    }
  }

  lemma DeletedKeyMoved(s: System, t: System, e: Effect)
    requires Sound(s.mover) && s.mover.state == EMovingKeyDeletingOriginal && Progress(s) && e.happened
    requires t.stores == Changed(s.mover, s.stores, e) && t.atStart == s.atStart
    ensures KeyMoved(t, s.listed[s.mover.keyIndex])
  {
  }

  lemma ProgressFromCertListing(s: System, status: int, e: Effect, leave: int)
    requires Sound(s.mover) && Possible(s, Completion(status, e, leave)) && Progress(s)
    requires s.mover.state == EMovingCertListingCerts
    ensures var t := Next(s, Completion(status, e, leave));
      && Progress(t)
      && (status >= 0 && t.answers != s.answers ==>
        t.answers == s.answers + [Answer(s.pending, KERR_NONE)] && AllTaken(t))
  {
    hide EffectPossible, KeyMoved, CertRemoved;
    var t := Next(s, Completion(status, e, leave));
    assert t.stores == s.stores && t.atStart == s.atStart;
    SameStores(s, t);
  }

  lemma ProgressFromRetrieving(s: System, status: int, e: Effect, leave: int)
    requires Sound(s.mover) && Possible(s, Completion(status, e, leave)) && Progress(s)
    requires s.mover.state == EMovingCertRetrievingCerts
    ensures var t := Next(s, Completion(status, e, leave)); Progress(t) && (status >= 0 ==> t.answers == s.answers)
  {
    hide EffectPossible, KeyMoved, CertRemoved;
    var t := Next(s, Completion(status, e, leave));
    assert t.stores == s.stores && t.atStart == s.atStart;
    SameStores(s, t);
  }

  lemma ProgressFromAdding(s: System, status: int, e: Effect, leave: int)
    requires Sound(s.mover) && Possible(s, Completion(status, e, leave)) && Guarded(s.mover, s.stores) && Progress(s)
    requires s.mover.state == EMovingCertAddingCerts
    ensures var t := Next(s, Completion(status, e, leave)); Progress(t) && (status >= 0 ==> t.answers == s.answers)
  {
    hide EffectPossible, KeyMoved, CertRemoved, Guarded;
    var t := Next(s, Completion(status, e, leave));
    if status >= 0 {
      MovedStays(s, t, e);
    }
  }

  lemma RemovingStep(s: System, status: int, e: Effect, leave: int)
    requires Sound(s.mover) && s.mover.state == EMovingCertDeletingOriginal
    ensures var t := AfterCompletion(s, status, e, leave);
      && t.stores == Changed(s.mover, s.stores, e) && t.atStart == s.atStart && t.listed == s.listed
      && t.completions == s.completions + 1 && t.mover.certs == s.mover.certs
      && t.mover.ptrInBuffer == s.mover.ptrInBuffer && t.mover.buffer == s.mover.buffer
      && if status < 0 then t.mover.state == EIdle
         else if s.mover.certIndex + 1 < |s.mover.certs| then
           && t.mover.state == EMovingCertRetrievingCerts && t.mover.certIndex == s.mover.certIndex + 1
           && t.answers == s.answers
         else t.mover.state == EIdle && t.answers == s.answers + [Answer(s.pending, KERR_NONE)]
  {
    hide Changed;
  }

  lemma ProgressFromRemoving(s: System, status: int, e: Effect, leave: int)
    requires Sound(s.mover) && Possible(s, Completion(status, e, leave)) && Guarded(s.mover, s.stores) && Progress(s)
    requires s.mover.state == EMovingCertDeletingOriginal
    ensures var t := Next(s, Completion(status, e, leave));
      && Progress(t)
      && (status >= 0 && t.answers != s.answers ==>
        t.answers == s.answers + [Answer(s.pending, KERR_NONE)] && AllTaken(t))
  {
    hide EffectPossible, KeyMoved, CertRemoved, Guarded, AfterCompletion, Changed;
    var t := Next(s, Completion(status, e, leave));
    RemovingStep(s, status, e, leave);
    if status >= 0 {
      MovedStays(s, t, e);
      DeletedCertRemoved(s, t, e);
    }
  }

  lemma ProgressInCerts(s: System, status: int, e: Effect, leave: int)
    requires Sound(s.mover) && Possible(s, Completion(status, e, leave)) && Guarded(s.mover, s.stores) && Progress(s)
    requires MovingCert(s.mover.state) || s.mover.state == EMovingCertListingCerts
    ensures Progress(Next(s, Completion(status, e, leave)))
    ensures var t := Next(s, Completion(status, e, leave));
      status >= 0 && t.answers != s.answers ==> t.answers == s.answers + [Answer(s.pending, KERR_NONE)] && AllTaken(t)
  {
    hide Progress, Guarded, EffectPossible, AllTaken, AfterCompletion;
    if s.mover.state == EMovingCertListingCerts {
      ProgressFromCertListing(s, status, e, leave);
    } else if s.mover.state == EMovingCertRetrievingCerts {
      ProgressFromRetrieving(s, status, e, leave);
    } else if s.mover.state == EMovingCertAddingCerts {
      ProgressFromAdding(s, status, e, leave);
    } else {
      ProgressFromRemoving(s, status, e, leave);
    }
  }

  lemma DeletedCertRemoved(s: System, t: System, e: Effect)
    requires Sound(s.mover) && s.mover.state == EMovingCertDeletingOriginal && Progress(s) && e.happened
    requires t.stores == Changed(s.mover, s.stores, e)
    ensures CertRemoved(t, s.mover.certs[s.mover.certIndex])
  {
  }

  /** One request further, in whichever phase. */
  lemma ProgressStep(s: System, ev: Event)
    requires Sound(s.mover) && Possible(s, ev) && Guarded(s.mover, s.stores) && Progress(s)
    ensures Progress(Next(s, ev))
  {
    hide EffectPossible, Guarded, Progress, KeyMoved, CertRemoved;
    match ev
    case Completion(status, e, leave) =>
      if s.mover.state == EMovingKeyListingKeys {
        ProgressFromListing(s, status, e, leave);
      } else if s.mover.state == EMovingKeyExportingKeys {
        ProgressFromExporting(s, status, e, leave);
      } else if s.mover.state == EMovingKeyImportingKeys {
        ProgressFromImporting(s, status, e, leave);
      } else if s.mover.state == EMovingKeyDeletingOriginal {
        ProgressFromDeleting(s, status, e, leave);
      } else if Moving(s.mover.state) {
        ProgressInCerts(s, status, e, leave);
      } else {
        ProgressAtStart(s, status, e, leave);
      }
    case MoveCall(leave) => ProgressAfterMove(s, leave);
    case CancelCall(e) => ProgressAfterCancel(s, e);
  }

  lemma ProgressAtStart(s: System, status: int, e: Effect, leave: int)
    requires Sound(s.mover) && Possible(s, Completion(status, e, leave)) && Initializing(s.mover.state)
    ensures Progress(Next(s, Completion(status, e, leave)))
  {
  }

  lemma ProgressAfterMove(s: System, leave: int)
    requires Sound(s.mover) && Progress(s)
    ensures Progress(Next(s, MoveCall(leave)))
  {
    hide KeyMoved, CertRemoved;
    var t := Next(s, MoveCall(leave));
    if Moving(s.mover.state) {
      assert t.mover == s.mover && t.stores == s.stores && t.atStart == s.atStart;
      SameMoved(s, t);
    }
  }

  lemma SameMoved(s: System, t: System)
    requires Sound(s.mover) && t.mover == s.mover && t.stores == s.stores && t.atStart == s.atStart
    requires t.listed == s.listed && t.completions == s.completions
    ensures Progress(s) ==> Progress(t)
  {
  }

  lemma ProgressAfterCancel(s: System, e: Effect)
    requires Sound(s.mover) && Possible(s, CancelCall(e)) && Progress(s)
    ensures Progress(Next(s, CancelCall(e)))
  {
    hide EffectPossible, KeyMoved, CertRemoved;
    if s.mover.active {
      CancelledSound(Written(s.mover, s.stores, e));
    }
  }

  lemma {:induction false} ProgressOverRuns(s: System, events: seq<Event>)
    requires Sound(s.mover) && Runs(s, events) && Guarded(s.mover, s.stores) && Progress(s) && Exchanging(s)
    ensures Guarded(After(s, events).mover, After(s, events).stores) && Progress(After(s, events))
    ensures Exchanging(After(s, events))
    decreases |events|
  {
    hide Guarded, Progress, Exchanging, Possible, Next;
    if events != [] {
      SelfLost(s.mover, s.stores);
      StepKeeps(s, events[0], s.stores);
      ProgressStep(s, events[0]);
      ExchangeStep(s, events[0]);
      ProgressOverRuns(Next(s, events[0]), events[1..]);
    }
  }

  /** The requests a move can take at most, as far as its lists are known. */
  function Bound(s: System): nat {
    if s.mover.state == EMovingKeyListingKeys then 1
    else if MovingKey(s.mover.state) then 1 + 3 * |s.listed|
    else if s.mover.state == EMovingCertListingCerts then 2 + 3 * |s.listed|
    else 2 + 3 * |s.listed| + 3 * |s.mover.certs|
  }

  lemma WithinBound(s: System)
    requires Sound(s.mover) && Progress(s) && Moving(s.mover.state)
    ensures s.completions < Bound(s)
  {
    hide KeysMoved, CertsRemoved, Exported, Unread;
  }

  /** After any run: a move in progress has used fewer requests than its lists allow and
      the next completion either ends it or is counted; and a client is answered with
      KErrNone only when every listed key has been moved and every listed certificate is out
      of the source, and in the target if iDataPtr has its buffer, after exactly two requests
      and three for each of them. */
  lemma MovesCountAndSucceed(s: System, events: seq<Event>, ev: Event)
    requires Initial(s) && Runs(s, events) && Possible(After(s, events), ev)
    ensures var t, u := After(s, events), Next(After(s, events), ev);
      && (Moving(t.mover.state) ==> t.completions < Bound(t))
      && (Moving(t.mover.state) && ev.Completion? && Moving(u.mover.state) ==> u.completions == t.completions + 1)
      && (forall a :: a in u.answers[|t.answers|..] && a.code == KERR_NONE ==> AllMoved(u))
  {
    hide Runs, After, Progress, Exchanging, Guarded, Possible, AllMoved, Sound;
    var t := After(s, events);
    assert Guarded(s.mover, s.stores) && Progress(s) && Exchanging(s) by { InitialHolds(s); }
    ProgressOverRuns(s, events);
    if Moving(t.mover.state) {
      WithinBound(t);
    }
    StepAnswers(t, ev);
  }

  /** After any run: when a client is answered with KErrNone, a listed certificate is in the
      target exactly when iDataPtr has its buffer, the target had it already, or the buffer
      holds it; the move has lost none exactly when that is so for each of them; and what a
      lost buffer holds is the last key of the move, if any was listed. */
  lemma SuccessKeepsExact(s: System, events: seq<Event>, ev: Event)
    requires Initial(s) && Runs(s, events) && Possible(After(s, events), ev)
    ensures var t, u := After(s, events), Next(After(s, events), ev);
      forall a :: a in u.answers[|t.answers|..] && a.code == KERR_NONE ==>
        && (forall c :: c in u.mover.certs ==>
          (c.identity in u.stores.targetCerts.Values <==>
            u.mover.ptrInBuffer || c.identity in u.atStart.targetCerts.Values || c.identity == u.mover.buffer))
        && (CertsKept(u.atStart, u.stores) <==> BufferServes(u))
        && LastKeyLeft(u)
  {
    hide Runs, After, Possible, Next, CertsKept, Exchanged, KeysMoved, CertsRemoved, LastKeyLeft, Sound;
    MovesCountAndSucceed(s, events, ev);
    var t, u := After(s, events), Next(After(s, events), ev);
    if AllMoved(u) {
      MovedCertsKept(u);
      forall c | c in u.mover.certs
        ensures c.identity in u.stores.targetCerts.Values <==>
          u.mover.ptrInBuffer || c.identity in u.atStart.targetCerts.Values || c.identity == u.mover.buffer
      {
        ListedInTarget(u, c);
      }
    }
  }

  lemma InitialHolds(s: System)
    requires Initial(s)
    ensures Guarded(s.mover, s.stores) && Progress(s) && Exchanging(s)
  {
  }

  lemma StepAnswers(t: System, ev: Event)
    requires Sound(t.mover) && Possible(t, ev) && Guarded(t.mover, t.stores) && Progress(t) && Exchanging(t)
    ensures var u := Next(t, ev);
      && |t.answers| <= |u.answers|
      && (Moving(t.mover.state) && ev.Completion? && Moving(u.mover.state) ==> u.completions == t.completions + 1)
      && (forall a :: a in u.answers[|t.answers|..] && a.code == KERR_NONE ==> AllMoved(u))
  {
    hide Progress, Exchanging, Guarded, AllTaken, Exchanged, EffectPossible, AfterCompletion, AfterMove, AfterCancel;
    match ev
    case Completion(status, e, leave) =>
      if MovingCert(t.mover.state) || t.mover.state == EMovingCertListingCerts {
        ProgressInCerts(t, status, e, leave);
        ExchangeAnswer(t, status, e, leave);
      }
      CompletionAnswers(t, status, e, leave);
    case MoveCall(leave) => MoveAnswers(t, leave);
    case CancelCall(e) => CancelAnswers(t, e);
  }

  lemma ExchangeAnswer(t: System, status: int, e: Effect, leave: int)
    requires Sound(t.mover) && Possible(t, Completion(status, e, leave)) && Guarded(t.mover, t.stores) && Exchanging(t)
    requires MovingCert(t.mover.state) || t.mover.state == EMovingCertListingCerts
    ensures var u := Next(t, Completion(status, e, leave));
      status >= 0 && u.answers != t.answers ==> AllExchanged(u)
  {
    hide Exchanging, Guarded, EffectPossible, Exchanged, AfterCompletion;
    if t.mover.state == EMovingCertListingCerts {
      ExchangeFromListing(t, status, e, leave);
    } else if t.mover.state == EMovingCertRetrievingCerts {
      ExchangeFromRetrieving(t, status, e, leave);
    } else if t.mover.state == EMovingCertAddingCerts {
      ExchangeFromAdding(t, status, e, leave);
    } else {
      ExchangeFromRemoving(t, status, e, leave);
    }
  }

  /** Only the last certificate step answers KErrNone. */
  lemma CompletionAnswers(t: System, status: int, e: Effect, leave: int)
    requires Sound(t.mover) && t.mover.active
    ensures var u := AfterCompletion(t, status, e, leave);
      && |t.answers| <= |u.answers| <= |t.answers| + 1
      && (Moving(t.mover.state) && Moving(u.mover.state) ==> u.completions == t.completions + 1)
      && (status < 0 || !(MovingCert(t.mover.state) || t.mover.state == EMovingCertListingCerts) ==>
        forall a :: a in u.answers[|t.answers|..] ==> a.code != KERR_NONE)
  {
    hide Written, Changed;
  }

  lemma MoveAnswers(t: System, leave: int)
    requires Sound(t.mover)
    ensures |t.answers| <= |AfterMove(t, leave).answers|
    ensures forall a :: a in AfterMove(t, leave).answers[|t.answers|..] ==> a.code != KERR_NONE
  {
  }

  lemma CancelAnswers(t: System, e: Effect)
    requires Sound(t.mover)
    ensures |t.answers| <= |AfterCancel(t, e).answers|
    ensures forall a :: a in AfterCancel(t, e).answers[|t.answers|..] ==> a.code != KERR_NONE
  {
    hide Written, Changed;
  }

  // ---------------------------------------------------------------- every move ends

  /** Where a move is: listing keys, moving keys, moving certificates; and how many
      requests are still to come in that part as far as its list is known. */
  datatype Measure = Measure(part: nat, remaining: int)

  function MoveMeasure(m: Mover): Measure
    requires Sound(m) && Moving(m.state)
  {
    match m.state
    case EMovingKeyListingKeys => Measure(2, 0)
    case EMovingKeyExportingKeys => Measure(1, 3 * (|m.keys| - m.keyIndex))
    case EMovingKeyImportingKeys => Measure(1, 3 * (|m.keys| - m.keyIndex) - 1)
    case EMovingKeyDeletingOriginal => Measure(1, 3 * (|m.keys| - m.keyIndex) - 2)
    case EMovingCertListingCerts => Measure(1, 0)
    case EMovingCertRetrievingCerts => Measure(0, 3 * (|m.certs| - m.certIndex))
    case EMovingCertAddingCerts => Measure(0, 3 * (|m.certs| - m.certIndex) - 1)
    case EMovingCertDeletingOriginal => Measure(0, 3 * (|m.certs| - m.certIndex) - 2)
  }

  predicate Below(a: Measure, b: Measure) {
    0 <= a.remaining && (a.part < b.part || (a.part == b.part && a.remaining < b.remaining))
  }

  lemma RanMeasure(m: Mover, status: int, leave: int)
    requires Sound(m) && m.active && Moving(m.state) && Moving(Ran(m, status, leave).mover.state)
    ensures Sound(Ran(m, status, leave).mover) && Below(MoveMeasure(Ran(m, status, leave).mover), MoveMeasure(m))
  {
    RanSound(m, status, leave);
  }

  /** What a request writes does not change how much is left. */
  lemma WrittenMeasure(m: Mover, w: Stores, e: Effect)
    requires Sound(m) && Moving(m.state)
    ensures MoveMeasure(Written(m, w, e)) == MoveMeasure(m)
  {
  }

  /** Every completion that does not end the move brings it closer to its end, whatever the
      lists are; a further call changes nothing, and a Cancel ends the move. */
  lemma MeasureDecreases(s: System, ev: Event)
    requires Sound(s.mover) && Possible(s, ev) && Moving(s.mover.state) && Moving(Next(s, ev).mover.state)
    ensures !ev.CancelCall?
    ensures ev.Completion? ==> Below(MoveMeasure(Next(s, ev).mover), MoveMeasure(s.mover))
    ensures ev.MoveCall? ==> Next(s, ev).mover == s.mover
  {
    hide EffectPossible, Changed, Written, Ran, Below, MoveMeasure, AfterCompletion;
    match ev
    case Completion(status, e, leave) =>
      CompletionParts(s, status, e, leave);
      WrittenMeasure(s.mover, s.stores, e);
      RanMeasure(Written(s.mover, s.stores, e), status, leave);
    case MoveCall(leave) =>
    case CancelCall(e) =>
  }

  /** The effects of the requests that are completed in a run. */
  function Completed(events: seq<Event>): seq<Effect> {
    if events == [] then []
    else (if events[0].Completion? then [events[0].effect] else []) + Completed(events[1..])
  }

  /** Two requests, and three for each key that the first one lists and for each certificate
      that the one after the keys lists. */
  function Limit(done: seq<Effect>): nat {
    if done == [] then 1
    else
      var certs := 1 + 3 * |done[0].keys|;
      certs + 1 + if certs < |done| then 3 * |done[certs].certs| else 0
  }

  /** The limit does not move once both lists are there. */
  lemma LimitIsFixed(done: seq<Effect>, more: seq<Effect>)
    requires done != [] && 1 + 3 * |done[0].keys| < |done|
    ensures Limit(done + more) == Limit(done)
  {
  }

  /** done are the requests of the move so far, and the lists are what they returned. */
  predicate Traced(s: System, done: seq<Effect>) {
    && s.completions == |done|
    && (s.mover.state != EMovingKeyListingKeys ==> done != [] && s.listed == done[0].keys)
    && (MovingCert(s.mover.state) ==> 1 + 3 * |s.listed| < |done| && s.mover.certs == done[1 + 3 * |s.listed|].certs)
  }

  lemma WithinLimit(s: System, done: seq<Effect>)
    requires Sound(s.mover) && Progress(s) && Moving(s.mover.state) && Traced(s, done)
    ensures |done| < Limit(done)
  {
    hide Progress;
    WithinBound(s);
  }

  lemma MoveParts(s: System, status: int, e: Effect, leave: int)
    requires Sound(s.mover) && Moving(s.mover.state)
    ensures var t := AfterCompletion(s, status, e, leave);
      && t.completions == s.completions + 1 && t.pending == s.pending
      && t.listed == (if s.mover.state == EMovingKeyListingKeys then e.keys else s.listed)
      && t.mover.certs == (if s.mover.state == EMovingCertListingCerts then e.certs else s.mover.certs)
      && t.mover.state != EMovingKeyListingKeys
      && (MovingCert(t.mover.state) ==> MovingCert(s.mover.state) || s.mover.state == EMovingCertListingCerts)
  {
    hide Changed;
  }

  lemma TracedStep(s: System, done: seq<Effect>, status: int, e: Effect, leave: int)
    requires Sound(s.mover) && Possible(s, Completion(status, e, leave)) && Progress(s) && Traced(s, done)
    requires Moving(s.mover.state) && Moving(Next(s, Completion(status, e, leave)).mover.state)
    ensures Traced(Next(s, Completion(status, e, leave)), done + [e])
    ensures Next(s, Completion(status, e, leave)).pending == s.pending
  {
    hide EffectPossible, KeysMoved, Exported, Unread, KeyProgress, CertProgress, AfterCompletion;
    MoveParts(s, status, e, leave);
  }

  /** At some point of the run the move is over; the client is then answered, and with
      KErrNone only when everything that was listed has been moved. */
  predicate EndsAnswered(s: System, events: seq<Event>, client: nat)
    requires Sound(s.mover) && Runs(s, events)
    decreases |events|
  {
    && events != []
    && var t := Next(s, events[0]);
      if Moving(t.mover.state) then EndsAnswered(t, events[1..], client)
      else
        && |t.answers| == |s.answers| + 1
        && t.answers[..|s.answers|] == s.answers
        && t.answers[|s.answers|].client == client
        && (t.answers[|s.answers|].code == KERR_NONE ==> AllMoved(t))
  }

  lemma EndOfMove(s: System, ev: Event)
    requires Sound(s.mover) && Possible(s, ev) && Moving(s.mover.state) && !Moving(Next(s, ev).mover.state)
    ensures var t := Next(s, ev);
      && |t.answers| == |s.answers| + 1
      && t.answers[..|s.answers|] == s.answers
      && t.answers[|s.answers|].client == s.pending
  {
    hide EffectPossible, Changed;
  }

  lemma CallWhileMoving(s: System, leave: int)
    requires Sound(s.mover) && Moving(s.mover.state)
    ensures var t := Next(s, MoveCall(leave));
      t.mover == s.mover && t.listed == s.listed && t.completions == s.completions && t.pending == s.pending
  {
  }

  lemma {:induction false} MoveEnds(s: System, done: seq<Effect>, events: seq<Event>)
    requires Sound(s.mover) && Runs(s, events) && Moving(s.mover.state)
    requires Guarded(s.mover, s.stores) && Progress(s) && Exchanging(s)
    requires Traced(s, done) && Limit(done + Completed(events)) <= |done + Completed(events)|
    ensures EndsAnswered(s, events, s.pending)
    decreases |events|
  {
    hide Guarded, Progress, Exchanging, Possible, Next, Traced, Limit, AllMoved;
    if events == [] {
      assert done + Completed(events) == done;
      WithinLimit(s, done);
    } else {
      var ev := events[0];
      var t := Next(s, ev);
      SelfLost(s.mover, s.stores);
      StepKeeps(s, ev, s.stores);
      ProgressStep(s, ev);
      ExchangeStep(s, ev);
      if !Moving(t.mover.state) {
        EndOfMove(s, ev);
        StepAnswers(s, ev);
        assert t.answers[|s.answers|] in t.answers[|s.answers|..];
      } else if ev.Completion? {
        TracedStep(s, done, ev.status, ev.effect, ev.leave);
        assert done + Completed(events) == (done + [ev.effect]) + Completed(events[1..]);
        MoveEnds(t, done + [ev.effect], events[1..]);
      } else {
        MeasureDecreases(s, ev);
        CallWhileMoving(s, ev.leave);
        assert Traced(t, done) by { SameTrace(s, t, done); }
        assert Completed(events) == Completed(events[1..]);
        MoveEnds(t, done, events[1..]);
      }
    }
  }

  lemma SameTrace(s: System, t: System, done: seq<Effect>)
    requires Traced(s, done) && t.mover == s.mover && t.listed == s.listed && t.completions == s.completions
    ensures Traced(t, done)
  {
  }

  /** A move that has begun, in any run, is over before the run has completed more requests
      than the two lists allow, and its client is then answered; whatever the stores list
      and however the requests end, no move goes on for ever. */
  lemma EveryMoveEnds(z: System, before: seq<Event>, events: seq<Event>)
    requires Initial(z) && Runs(z, before) && After(z, before).mover.state == EMovingKeyListingKeys
    requires Runs(After(z, before), events) && Limit(Completed(events)) <= |Completed(events)|
    ensures EndsAnswered(After(z, before), events, After(z, before).pending)
  {
    hide Runs, After, Guarded, Exchanging, EndsAnswered, Limit, Completed;
    var s := After(z, before);
    assert Sound(z.mover) && Guarded(z.mover, z.stores) && Progress(z) && Exchanging(z) by { InitialHolds(z); }
    ProgressOverRuns(z, before);
    assert [] + Completed(events) == Completed(events);
    MoveEnds(s, [], events);
  }

  /** Once both lists have come back the limit is a number that no later request moves. */
  lemma EndsOnceListed(z: System, before: seq<Event>, events: seq<Event>, done: seq<Effect>)
    requires Initial(z) && Runs(z, before) && After(z, before).mover.state == EMovingKeyListingKeys
    requires Runs(After(z, before), events) && done <= Completed(events)
    requires done != [] && 1 + 3 * |done[0].keys| < |done| && Limit(done) <= |Completed(events)|
    ensures EndsAnswered(After(z, before), events, After(z, before).pending)
  {
    hide Runs, After, EndsAnswered, Limit, Completed;
    LimitIsFixed(done, Completed(events)[|done|..]);
    assert done + Completed(events)[|done|..] == Completed(events);
    EveryMoveEnds(z, before, events);
  }

  // ------------------------------------------------------ a certificate is lost

  /** Each state of the trace leads to the next. */
  predicate Steps(trace: seq<System>, events: seq<Event>) {
    && |trace| == |events| + 1
    && forall i :: 0 <= i < |events| ==> StepsTo(trace[i], events[i], trace[i + 1])
  }

  predicate StepsTo(s: System, ev: Event, t: System) {
    Sound(s.mover) && Possible(s, ev) && Next(s, ev) == t
  }

  lemma {:induction false} TraceRuns(trace: seq<System>, events: seq<Event>)
    requires Steps(trace, events) && Sound(trace[0].mover)
    ensures Runs(trace[0], events) && After(trace[0], events) == trace[|events|]
    decreases |events|
  {
    hide Next, Possible;
    if events != [] {
      assert StepsTo(trace[0], events[0], trace[1]);
      assert Steps(trace[1..], events[1..]);
      TraceRuns(trace[1..], events[1..]);
    }
  }

  /** A request that takes place and succeeds. */
  function Done(handle: Handle, replaced: bool, keys: seq<Handle>, certs: seq<CertInfo>): Event {
    Completion(0, Effect(true, handle, handle, replaced, keys, certs), 0)
  }

  /** One key, one certificate, and a key store that returns exported keys in new buffers. */
  const ONE_OF_EACH := Stores(map[1 := 10], map[], map[2 := 20], map[])
  const LISTED_CERT := CertInfo(2, 20)

  const KEY_IMPORTED := Stores(map[1 := 10], map[1 := 10], map[2 := 20], map[])
  const KEY_MOVED := Stores(map[], map[1 := 10], map[2 := 20], map[])
  const KEY_ADDED := Stores(map[], map[1 := 10], map[2 := 20], map[3 := 10])
  const CERT_LOST := Stores(map[], map[1 := 10], map[], map[3 := 10])

  /** The mover, the stores, the listed keys and the completions at each step. */
  function MoverAt(i: nat): Mover {
    match i
    case 0 => Mover(EInitializingCertStore, false, true, [], 0, 0, 0, true, [], 0)
    case 1 => Mover(EInitializingKeyStore, false, true, [], 0, 0, 0, true, [], 0)
    case 2 => Mover(EIdle, false, false, [], 0, 0, 0, true, [], 0)
    case 3 => Mover(EMovingKeyListingKeys, true, true, [], 0, 0, 0, true, [], 0)
    case 4 => Mover(EMovingKeyExportingKeys, true, true, [1], 0, 0, 0, true, [], 0)
    case 5 => Mover(EMovingKeyImportingKeys, true, true, [1], 0, 1, 10, false, [], 0)
    case 6 => Mover(EMovingKeyDeletingOriginal, true, true, [1], 0, 1, 10, false, [], 0)
    case 7 => Mover(EMovingCertListingCerts, true, true, [1], 1, 1, 10, false, [], 0)
    case 8 => Mover(EMovingCertRetrievingCerts, true, true, [1], 1, 1, 10, false, [LISTED_CERT], 0)
    case 9 => Mover(EMovingCertAddingCerts, true, true, [1], 1, 1, 10, false, [LISTED_CERT], 0)
    case 10 => Mover(EMovingCertDeletingOriginal, true, true, [1], 1, 1, 10, false, [LISTED_CERT], 0)
    case _ => Mover(EIdle, false, false, [1], 1, 1, 10, false, [LISTED_CERT], 1)
  }

  function TraceAt(i: nat): System {
    var m := MoverAt(i);
    if i < 3 then System(m, ONE_OF_EACH, ONE_OF_EACH, [], i, 0, 0, [])
    else if i == 3 then System(m, ONE_OF_EACH, ONE_OF_EACH, [], 0, 1, 0, [])
    else if i < 6 then System(m, ONE_OF_EACH, ONE_OF_EACH, [1], i - 3, 1, 0, [])
    else if i == 6 then System(m, KEY_IMPORTED, ONE_OF_EACH, [1], 3, 1, 0, [])
    else if i < 10 then System(m, KEY_MOVED, ONE_OF_EACH, [1], i - 3, 1, 0, [])
    else if i == 10 then System(m, KEY_ADDED, ONE_OF_EACH, [1], 7, 1, 0, [])
    else System(m, CERT_LOST, ONE_OF_EACH, [1], 8, 1, 0, [Answer(0, KERR_NONE)])
  }

  function EventAt(i: nat): Event {
    match i
    case 2 => MoveCall(0)
    case 3 => Done(0, false, [1], [])
    case 4 => Done(0, true, [], [])
    case 5 => Done(1, false, [], [])
    case 7 => Done(0, false, [], [LISTED_CERT])
    case 9 => Done(3, false, [], [])
    case _ => Done(0, false, [], [])
  }

  lemma InitialSteps(i: nat)
    requires i < 3
    ensures StepsTo(TraceAt(i), EventAt(i), TraceAt(i + 1))
  {
    if i == 0 {
    } else if i == 1 {
    } else {
    }
  }

  lemma KeyListed()
    ensures StepsTo(TraceAt(3), EventAt(3), TraceAt(4))
  {
  }

  lemma KeyExported()
    ensures StepsTo(TraceAt(4), EventAt(4), TraceAt(5))
  {
  }

  lemma KeyImported()
    ensures StepsTo(TraceAt(5), EventAt(5), TraceAt(6))
  {
    assert [1][0 := 1] == [1];
  }

  lemma KeyDeleted()
    ensures StepsTo(TraceAt(6), EventAt(6), TraceAt(7))
  {
    var s, e := TraceAt(6), EventAt(6).effect;
    assert Changed(s.mover, s.stores, e) == KEY_MOVED by {
      assert map[1 := 10] - {1} == map[];
    }
    assert Written(s.mover, s.stores, e) == s.mover;
    assert Ran(s.mover, 0, 0) == Reply(MoverAt(7), None);
  }

  lemma CertListed()
    ensures StepsTo(TraceAt(7), EventAt(7), TraceAt(8))
  {
  }

  lemma CertRetrieved()
    ensures StepsTo(TraceAt(8), EventAt(8), TraceAt(9))
  {
  }

  lemma CertAdded()
    ensures StepsTo(TraceAt(9), EventAt(9), TraceAt(10))
  {
  }

  lemma CertDeleted()
    ensures StepsTo(TraceAt(10), EventAt(10), TraceAt(11))
  {
    var s, e := TraceAt(10), EventAt(10).effect;
    assert Changed(s.mover, s.stores, e) == CERT_LOST by {
      assert map[2 := 20] - {2} == map[];
    }
    assert Written(s.mover, s.stores, e) == s.mover;
    assert Ran(s.mover, 0, 0) == Reply(MoverAt(11), Some(KERR_NONE));
  }

  lemma TraceSteps(i: nat)
    requires i < 11
    ensures StepsTo(TraceAt(i), EventAt(i), TraceAt(i + 1))
  {
    hide StepsTo, TraceAt, EventAt;
    if i < 3 {
      InitialSteps(i);
    } else {
      KeyListed();
      KeyExported();
      KeyImported();
      KeyDeleted();
      CertListed();
      CertRetrieved();
      CertAdded();
      CertDeleted();
    }
  }

  /** Everything succeeds. */
  const LOSING_RUN := seq(11, i requires 0 <= i < 11 => EventAt(i))

  /** The move of a key and a certificate succeeds, but what has been added to the target is
      the key, and the certificate is nowhere. */
  lemma CertificateIsLost()
    ensures Initial(TraceAt(0))
    ensures Runs(TraceAt(0), LOSING_RUN)
    ensures var t := After(TraceAt(0), LOSING_RUN);
      && t.answers == [Answer(0, KERR_NONE)]
      && t.stores.sourceCerts == map[] && t.stores.targetCerts == map[3 := 10]
      && !CertsKept(TraceAt(0).stores, t.stores)
  {
    hide StepsTo, EventAt, Runs, After, Possible, Next, CertsKept;
    var trace := seq(12, i requires 0 <= i < 12 => TraceAt(i));
    forall i | 0 <= i < 11 ensures StepsTo(trace[i], LOSING_RUN[i], trace[i + 1]) {
      TraceSteps(i);
    }
    TraceRuns(trace, LOSING_RUN);
    TraceRuns(trace[..11], LOSING_RUN[..10]);
    LastStepLoses();
  }

  /** The last request of that run is answered with KErrNone, while the buffer holds the key. */
  lemma LastStepLoses()
    requires Initial(TraceAt(0)) && Runs(TraceAt(0), LOSING_RUN[..10])
    requires After(TraceAt(0), LOSING_RUN[..10]) == TraceAt(10)
    ensures !CertsKept(TraceAt(11).atStart, TraceAt(11).stores)
  {
    hide Runs, After, Possible, CertsKept, Next;
    TraceSteps(10);
    var t, u := TraceAt(10), TraceAt(11);
    assert Possible(t, EventAt(10)) && Next(t, EventAt(10)) == u;
    SuccessKeepsExact(TraceAt(0), LOSING_RUN[..10], EventAt(10));
    assert u.answers[|t.answers|..] == [Answer(0, KERR_NONE)];
    assert LISTED_CERT in u.mover.certs && !BufferServes(u);
  }
}
