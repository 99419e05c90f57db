/** Runs of the list builder one after the other: what a run that fails leaves behind, and
    what that does to the later ones. */
module CertListRuns {
  import opened Outcomes
  import opened ActiveObjects
  import opened LabeledCertInfo
  import opened CertListBuilder

  // ------------------------------------------------------------------- one run

  /** The rest of a run all requests of which succeed. */
  function Finished(b: Builder, store: nat -> Subject): (r: Reply)
    requires Sound(b) && (b.state == ERetrievingCert || b.state == EProcessingCert)
    decreases |b.entries| - b.index
  {
    var r := Ran(b, store, 0, [], EMPTY_BUFFER);
    if r.builder.state == EIdle then r else Finished(r.builder, store)
  }

  /** A whole run of an idle builder all requests of which succeed. */
  function ListRun(b: Builder, store: nat -> Subject, listed: seq<StoreEntry>): (r: Reply)
    requires b.state == EIdle
  {
    var r := Ran(Started(b), store, 0, listed, EMPTY_BUFFER);
    if r.builder.state == EIdle then r else Finished(r.builder, store)
  }

  predicate FirstUnparsed(entries: seq<StoreEntry>, k: int, store: nat -> Subject, leftover: Option<Subject>) {
    && 0 <= k < |entries| && ParsedTo(entries, k, store, leftover)
    && Unparsed(CertificateFor(entries, k, store, leftover))
  }

  /** How a run ends that was started with stale entries and some leftover certificate: with
      all entries labelled, or at the first one whose certificate cannot be parsed. */
  ghost predicate EndsAsLabelled(r: Reply, entries: seq<StoreEntry>, store: nat -> Subject, stale: seq<Labeled>,
    leftover: Option<Subject>)
  {
    var labels := RunLabels(entries, store, leftover);
    && r.builder.state == EIdle
    && (ParsedTo(entries, |entries|, store, leftover) ==>
      && r.answer == Some(KERR_NONE) && r.returned == Some(SortedByLabel(stale + labels))
      && r.builder.labeled == [] && r.builder.certificate == if entries == [] then leftover else None)
    && (forall k :: FirstUnparsed(entries, k, store, leftover) ==>
      && r.answer == Some(LeaveCodeOf(CertificateFor(entries, k, store, leftover).value.code)) && r.returned == None
      && r.builder.labeled == stale + labels[..k]
      && r.builder.certificate == CertificateFor(entries, k, store, leftover))
  }

  lemma {:induction false} FinishedExact(b: Builder, store: nat -> Subject, stale: seq<Labeled>,
    leftover: Option<Subject>)
    requires Sound(b) && (b.state == ERetrievingCert || b.state == EProcessingCert)
    requires b.labeled == stale + RunLabels(b.entries, store, leftover)[..b.index]
    requires ParsedTo(b.entries, b.index, store, leftover)
    requires b.state == EProcessingCert ==> b.certificate == CertificateFor(b.entries, b.index, store, leftover)
    ensures EndsAsLabelled(Finished(b, store), b.entries, store, stale, leftover)
    decreases |b.entries| - b.index
  {
    hide RunLabels, SortedByLabel, LabeledWith, ParsedTo, CertificateFor, NeedsSubject;
    var r := Ran(b, store, 0, [], EMPTY_BUFFER);
    OneMoreLabel(b.entries, b.index, store, leftover);
    var at := CertificateFor(b.entries, b.index, store, leftover);
    if Unparsed(at) {
      FailsAt(b.entries, b.index, store, leftover);
      assert b.labeled == stale + RunLabels(b.entries, store, leftover)[..b.index];
    } else if b.index + 1 < |b.entries| {
      assert r.builder.labeled == stale + RunLabels(b.entries, store, leftover)[..b.index + 1];
      if !NeedsSubject(b.entries[b.index + 1]) {
        AtHandFor(b.entries, b.index + 1, store, leftover);
      }
      FinishedExact(r.builder, store, stale, leftover);
    } else {
      AllLabelled(b.entries, store, leftover);
      NoneUnparsed(b.entries, store, leftover);
      assert b.labeled + [LabeledWith(b.entries[b.index], at)] == stale + RunLabels(b.entries, store, leftover);
    }
  }

  lemma FailsAt(entries: seq<StoreEntry>, k: nat, store: nat -> Subject, leftover: Option<Subject>)
    requires k < |entries| && ParsedTo(entries, k, store, leftover)
    requires Unparsed(CertificateFor(entries, k, store, leftover))
    ensures !ParsedTo(entries, |entries|, store, leftover)
    ensures forall j :: FirstUnparsed(entries, j, store, leftover) <==> j == k
  {
  }

  lemma NoneUnparsed(entries: seq<StoreEntry>, store: nat -> Subject, leftover: Option<Subject>)
    requires ParsedTo(entries, |entries|, store, leftover)
    ensures forall j :: !FirstUnparsed(entries, j, store, leftover)
  {
  }

  /** What a run gives its client and what it leaves behind, by what it was started with. */
  lemma ListRunExact(b: Builder, store: nat -> Subject, listed: seq<StoreEntry>)
    requires b.state == EIdle
    ensures EndsAsLabelled(ListRun(b, store, listed), listed, store, b.labeled, b.certificate)
  {
    hide RunLabels, SortedByLabel, ParsedTo, CertificateFor, NeedsSubject, EndsAsLabelled;
    NothingLabelled(listed, store, b.certificate);
    if listed == [] {
      EmptyRun(b, store);
    } else {
      var r := Ran(Started(b), store, 0, listed, EMPTY_BUFFER);
      if !NeedsSubject(listed[0]) {
        AtHandFor(listed, 0, store, b.certificate);
      }
      assert b.labeled + [] == b.labeled;
      FinishedExact(r.builder, store, b.labeled, b.certificate);
    }
  }

  lemma EmptyRun(b: Builder, store: nat -> Subject)
    requires b.state == EIdle
    ensures EndsAsLabelled(ListRun(b, store, []), [], store, b.labeled, b.certificate)
  {
    assert b.labeled + RunLabels([], store, b.certificate) == b.labeled;
  }

  /** The certificates that the store has for the entries can all be parsed. */
  predicate StoreParses(entries: seq<StoreEntry>, store: nat -> Subject) {
    forall i :: 0 <= i < |entries| && NeedsSubject(entries[i]) ==> !store(entries[i].handle).Unparsable?
  }

  /** The first entry needs no certificate, and one that cannot be parsed has been left over. */
  predicate StartsBadly(listed: seq<StoreEntry>, leftover: Option<Subject>) {
    listed != [] && !NeedsSubject(listed[0]) && Unparsed(leftover)
  }

  /** A run of which everything succeeds, with certificates that can all be parsed. It fails
      exactly when it starts badly, and then leaves everything as it was. Otherwise the client
      gets the listed certificates with their right labels and nothing else exactly when no
      entries were left over and no certificate with a name was taken for that of the first
      entry. */
  lemma NextRunExact(b: Builder, store: nat -> Subject, listed: seq<StoreEntry>)
    requires b.state == EIdle && StoreParses(listed, store)
    ensures var r := ListRun(b, store, listed);
      && r.builder.state == EIdle
      && (r.answer == Some(KERR_NONE) <==> !StartsBadly(listed, b.certificate))
      && (r.returned.Some? <==> r.answer == Some(KERR_NONE))
      && (StartsBadly(listed, b.certificate) ==>
        && r.answer == Some(LeaveCodeOf(b.certificate.value.code))
        && r.builder.labeled == b.labeled && r.builder.certificate == b.certificate)
      && (r.returned.Some? ==>
        (multiset(r.returned.value) == multiset(LabelAll(listed, store)) <==>
          b.labeled == [] && StartsRightly(listed, b.certificate)))
  {
    hide RunLabels, SortedByLabel, NeedsSubject, ListRun, LabelAll, StartsRightly;
    ListRunExact(b, store, listed);
    if StartsBadly(listed, b.certificate) {
      AtHandFor(listed, 0, store, b.certificate);
      assert FirstUnparsed(listed, 0, store, b.certificate);
      assert b.labeled + RunLabels(listed, store, b.certificate)[..0] == b.labeled;
    } else {
      assert ParsedTo(listed, |listed|, store, b.certificate);
      RightListIff(b.labeled, listed, store, b.certificate);
    }
  }

  // ---------------------------------------------------------------- many runs

  datatype Event =
    | ListCall
    | Completion(status: int, listed: seq<StoreEntry>, leftover: Subject)
    | CancelCall

  predicate Possible(b: Builder, ev: Event) {
    Sound(b) && (ev.Completion? ==> b.state != EIdle)
  }

  /** A call of GetCertificateList, a completion, or a Cancel; the answer goes to the client
      whose run it is, or for a refused call to its caller. */
  function Next(b: Builder, store: nat -> Subject, ev: Event): (r: Reply)
    requires Possible(b, ev)
    ensures Sound(r.builder)
  {
    match ev
    case ListCall => if b.state == EIdle then Reply(Started(b), None, None) else Reply(b, Some(KERR_IN_USE), None)
    case Completion(status, listed, leftover) => Ran(b, store, status, listed, leftover)
    case CancelCall => if b.state == EIdle then Reply(b, None, None) else Reply(Cancelled(b), Some(KERR_CANCEL), None)
  }

  predicate Runs(b: Builder, store: nat -> Subject, events: seq<Event>)
    decreases |events|
  {
    events == [] || (Possible(b, events[0]) && Runs(Next(b, store, events[0]).builder, store, events[1..]))
  }

  function After(b: Builder, store: nat -> Subject, events: seq<Event>): Builder
    requires Runs(b, store, events)
    decreases |events|
  {
    if events == [] then b else After(Next(b, store, events[0]).builder, store, events[1..])
  }

  /** The listing of a run that is on has just come back. */
  predicate Lists(b: Builder, ev: Event) {
    ev.Completion? && ev.status >= 0 && b.state == EListingCerts
  }

  /** No client has been answered with success, nor got anything, but those of runs that list
      nothing. */
  predicate AllFail(b: Builder, store: nat -> Subject, events: seq<Event>)
    requires Runs(b, store, events)
    decreases |events|
  {
    events == [] || (
      var ev, r := events[0], Next(b, store, events[0]);
      && ((r.answer != Some(KERR_NONE) && r.returned == None) || (Lists(b, ev) && ev.listed == []))
      && AllFail(r.builder, store, events[1..]))
  }

  /** No listing that succeeds starts with an entry that needs its certificate. */
  predicate NoAuthorityFirst(b: Builder, store: nat -> Subject, events: seq<Event>)
    requires Runs(b, store, events)
    decreases |events|
  {
    events == [] || (
      var ev := events[0];
      && (Lists(b, ev) && ev.listed != [] ==> !NeedsSubject(ev.listed[0]))
      && NoAuthorityFirst(Next(b, store, ev).builder, store, events[1..]))
  }

  /** A certificate that cannot be parsed is at hand before the first entry is processed. */
  predicate Poisoned(b: Builder) {
    && Sound(b) && Unparsed(b.certificate)
    && (b.state == EIdle || b.state == EListingCerts || (b.state == EProcessingCert && b.index == 0))
  }

  lemma PoisonedStep(b: Builder, store: nat -> Subject, ev: Event)
    requires Poisoned(b) && Possible(b, ev)
    requires Lists(b, ev) && ev.listed != [] ==> !NeedsSubject(ev.listed[0])
    ensures var r := Next(b, store, ev);
      && Poisoned(r.builder) && r.builder.certificate == b.certificate
      && ((Lists(b, ev) && ev.listed == []) || (
        r.answer != Some(KERR_NONE) && r.returned == None && r.builder.labeled == b.labeled))
  {
    hide NeedsSubject, SortedByLabel;
  }

  /** A builder with such a certificate fails every run that lists something, whatever
      requests succeed, fail or are cancelled, as long as no listing starts with an entry that
      needs its own, and never gets rid of it. */
  lemma {:induction false} PoisonedFails(b: Builder, store: nat -> Subject, events: seq<Event>)
    requires Poisoned(b) && Runs(b, store, events) && NoAuthorityFirst(b, store, events)
    ensures AllFail(b, store, events)
    ensures Poisoned(After(b, store, events)) && After(b, store, events).certificate == b.certificate
    decreases |events|
  {
    hide Poisoned, Possible, Next, Lists;
    if events != [] {
      PoisonedStep(b, store, events[0]);
      PoisonedFails(Next(b, store, events[0]).builder, store, events[1..]);
    }
  }

  const NEW_BUILDER := Builder(EIdle, [], 0, None, [])

  /** One retrieval that fails, or is cancelled, is enough: the buffer that was made for the
      certificate stays. */
  lemma FailedRetrievalPoisons(store: nat -> Subject, entry: StoreEntry, failure: Event, events: seq<Event>)
    requires NeedsSubject(entry)
    requires failure == CancelCall || (failure.Completion? && failure.status < 0 && failure.leftover == EMPTY_BUFFER)
    ensures var run := [ListCall, Completion(0, [entry], EMPTY_BUFFER), failure];
      && Runs(NEW_BUILDER, store, run)
      && var b := After(NEW_BUILDER, store, run);
        && b.state == EIdle && Poisoned(b)
        && (Runs(b, store, events) && NoAuthorityFirst(b, store, events) ==> AllFail(b, store, events))
  {
    hide NeedsSubject, AllFail, NoAuthorityFirst;
    var run := [ListCall, Completion(0, [entry], EMPTY_BUFFER), failure];
    assert run[1..] == [Completion(0, [entry], EMPTY_BUFFER), failure] && run[1..][1..] == [failure];
    assert run[1..][1..][1..] == [];
    var t := Next(NEW_BUILDER, store, run[0]).builder;
    var u := Next(t, store, run[1]).builder;
    assert u.state == ERetrievingCert && u.certificate == Some(EMPTY_BUFFER);
    var b := Next(u, store, failure).builder;
    assert Runs(u, store, run[1..][1..]) && After(u, store, run[1..][1..]) == b;
    assert Runs(t, store, run[1..]) && After(t, store, run[1..]) == b;
    if Runs(b, store, events) && NoAuthorityFirst(b, store, events) {
      PoisonedFails(b, store, events);
    }
  }

  /** Such a builder recovers with the first run that starts with an entry that needs its own
      certificate. */
  lemma AuthorityFirstRecovers(b: Builder, store: nat -> Subject, listed: seq<StoreEntry>)
    requires Poisoned(b) && b.state == EIdle && StoreParses(listed, store)
    requires listed != [] && NeedsSubject(listed[0])
    ensures var r := ListRun(b, store, listed);
      r.answer == Some(KERR_NONE) && r.builder.certificate == None && r.builder.labeled == []
  {
    hide RunLabels, SortedByLabel, ListRun;
    ListRunExact(b, store, listed);
  }
}
