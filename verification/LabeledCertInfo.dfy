/** CAdvSecSettingsLabeledCertInfo: labels of certificates, how they are put together and
    how they are ordered. */
module LabeledCertInfo {
  datatype OwnerType = CaCertificate | UserCertificate | PeerCertificate | OtherCertificate

  /** CCTCertInfo, as far as the list builder and the model look at it. */
  datatype StoreEntry = StoreEntry(handle: nat, owner: OwnerType, x509: bool, text: string, storeType: nat,
    deletable: bool)

  /** What the name parser makes of a retrieved certificate: it cannot be parsed at all,
      it has no names, or it has a primary and a secondary name, either of them empty. */
  datatype Subject = Unparsable(code: nat) | Unnamed | Named(primary: string, secondary: string)

  datatype Labeled = Labeled(entry: StoreEntry, text: string)

  const NAME_SEPARATOR: string := " "

  /** AppendLabelL */
  function Appended(text: string, separator: string, more: string): (r: string)
    ensures text != "" ==> |r| == |text| + |separator| + |more|
  {
    if text != "" then text + separator + more else more
  }

  /** The primary name, or else the secondary one, goes behind the store's label. */
  function SubjectLabel(text: string, subject: Subject): string {
    match subject
    case Named(primary, secondary) =>
      if primary != "" then Appended(text, NAME_SEPARATOR, primary)
      else if secondary != "" then Appended(text, NAME_SEPARATOR, secondary)
      else text
    case _ => text
  }

  /** Only authority certificates are retrieved, because their labels may coincide. */
  predicate NeedsSubject(entry: StoreEntry) {
    entry.owner == CaCertificate && entry.x509
  }

  function LabelFor(entry: StoreEntry, subject: Subject): Labeled {
    Labeled(entry, if NeedsSubject(entry) then SubjectLabel(entry.text, subject) else entry.text)
  }

  /** A label starts with the one the store has; behind it, after the separator, stands the
      primary name or, without one, the secondary name, and only for retrieved certificates. */
  lemma LabelShows(entry: StoreEntry, subject: Subject)
    ensures var shown := LabelFor(entry, subject).text;
      && entry.text <= shown
      && (!NeedsSubject(entry) || !subject.Named? || (subject.primary == "" && subject.secondary == "") ==>
        shown == entry.text)
      && (NeedsSubject(entry) && subject.Named? && subject.primary != "" ==> EndsWith(shown, subject.primary))
      && (NeedsSubject(entry) && subject.Named? && subject.primary == "" ==> EndsWith(shown, subject.secondary))
      && (entry.text != "" && shown != entry.text ==> |shown| > |entry.text| + 1 && shown[|entry.text|] == ' ')
  {
  }

  predicate EndsWith(s: string, suffix: string) {
    |suffix| <= |s| && s[|s| - |suffix|..] == suffix
  }

  // ----------------------------------------------------------------- ordering

  /** Case folding, for the letters of the basic alphabet. */
  function FoldChar(c: char): char {
    if 'A' <= c <= 'Z' then (c as int + 32) as char else c
  }

  /** CompareF: lexicographic order of the folded texts. */
  function CompareFolded(a: string, b: string): int {
    if a == "" then (if b == "" then 0 else -1)
    else if b == "" then 1
    else if FoldChar(a[0]) != FoldChar(b[0]) then FoldChar(a[0]) as int - FoldChar(b[0]) as int
    else CompareFolded(a[1..], b[1..])
  }

  function Compare(a: Labeled, b: Labeled): int {
    CompareFolded(a.text, b.text)
  }

  lemma {:induction false} CompareTotal(a: string, b: string)
    ensures CompareFolded(a, b) <= 0 || CompareFolded(b, a) <= 0
  {
    if a != "" && b != "" && FoldChar(a[0]) == FoldChar(b[0]) {
      CompareTotal(a[1..], b[1..]);
    }
  }

  lemma {:induction false} CompareTransitive(a: string, b: string, c: string)
    requires CompareFolded(a, b) <= 0 && CompareFolded(b, c) <= 0
    ensures CompareFolded(a, c) <= 0
  {
    if a != "" && b != "" && c != "" && FoldChar(a[0]) == FoldChar(b[0]) == FoldChar(c[0]) {
      CompareTransitive(a[1..], b[1..], c[1..]);
    }
  }

  predicate Sorted(s: seq<Labeled>) {
    forall i, j :: 0 <= i < j < |s| ==> Compare(s[i], s[j]) <= 0
  }

  /** One element put in front of the first one that is not smaller. */
  function Inserted(x: Labeled, s: seq<Labeled>): (r: seq<Labeled>)
    ensures multiset(r) == multiset([x]) + multiset(s)
  {
    if s == [] then [x]
    else if Compare(x, s[0]) <= 0 then [x] + s
    else
      assert s == [s[0]] + s[1..];
      [s[0]] + Inserted(x, s[1..])
  }

  /** Stands for the array's Sort: a sorted permutation of what was there. */
  function SortedByLabel(s: seq<Labeled>): (r: seq<Labeled>)
    ensures Sorted(r) && multiset(r) == multiset(s)
  {
    if s == [] then []
    else
      InsertedSorted(s[0], SortedByLabel(s[1..]));
      assert s == [s[0]] + s[1..];
      Inserted(s[0], SortedByLabel(s[1..]))
  }

  lemma {:induction false} InsertedSorted(x: Labeled, s: seq<Labeled>)
    requires Sorted(s)
    ensures Sorted(Inserted(x, s))
  {
    if s != [] {
      if Compare(x, s[0]) <= 0 {
        forall j | 0 <= j < |s| ensures Compare(x, s[j]) <= 0 {
          if j != 0 {
            CompareTransitive(x.text, s[0].text, s[j].text);
          }
        }
      } else {
        InsertedSorted(x, s[1..]);
        CompareTotal(x.text, s[0].text);
        var rest := Inserted(x, s[1..]);
        forall j | 0 <= j < |rest| ensures Compare(s[0], rest[j]) <= 0 {
          assert rest[j] in multiset(rest);
          assert rest[j] == x || rest[j] in s[1..];
        }
      }
    }
  }
}
