/**
 The status suite: which status entries are checked, the store that hands verified
 lists from one check to the next, and the two checks themselves.
 */
module StatusLists {
  import opened Options
  import opened JsonValues
  import opened JsonPointer
  import opened CryptoDispatch
  import Strings
  import P = ProofSuite
  import R = Results

  // ----- sorting the entries -----

  const BITSTRING_ENTRY_TYPE := "BitstringStatusListEntry"
  const CHECKED_STATUS_PURPOSES := ["revocation", "suspension"]

  datatype EntryClass =
    | CheckedEntry
    | OtherType(type_: string)
    | OtherPurpose(purpose: string)
    | Malformed(field: Option<string>)

  function ClassifyStatusEntry(entry: Value): EntryClass {
    var types := StringValues(Member(entry, "type"));
    if !entry.VObject? then Malformed(None)
    else if types == [] then Malformed(Some("type"))
    else if BITSTRING_ENTRY_TYPE !in types then OtherType(types[0])
    else
      match Member(entry, "statusPurpose")
      case Some(VString(purpose)) => if purpose in CHECKED_STATUS_PURPOSES then CheckedEntry else OtherPurpose(purpose)
      case _ => Malformed(Some("statusPurpose"))
  }

  /** The entries of `credentialStatus`, whether there is one or several; a falsy value is none. */
  function StatusEntries(credential: Value): seq<Value> {
    var status := Member(credential, "credentialStatus");
    if Truthy(status) then EntriesOf(status.value) else []
  }

  function EntryPlace(credential: Value, k: nat): Pointer {
    var status := Member(credential, "credentialStatus");
    if status.Some? && status.value.VArray? then [Name("credentialStatus"), Index(k)] else [Name("credentialStatus")]
  }

  function MalformedProblem(credential: Value, k: nat, field: Option<string>): R.Problem {
    R.Problem(R.MalformedValueError, "",
              Some(FormatJsonPointer(EntryPlace(credential, k) + if field.Some? then [Name(field.value)] else [])))
  }

  function MalformedProblems(credential: Value, k: nat): seq<R.Problem>
    requires k <= |StatusEntries(credential)|
  {
    if k == 0 then []
    else
      match ClassifyStatusEntry(StatusEntries(credential)[k - 1])
      case Malformed(field) => MalformedProblems(credential, k - 1) + [MalformedProblem(credential, k - 1, field)]
      case _ => MalformedProblems(credential, k - 1)
  }

  predicate HasCheckedEntry(credential: Value) {
    exists k :: 0 <= k < |StatusEntries(credential)| && ClassifyStatusEntry(StatusEntries(credential)[k]).CheckedEntry?
  }

  predicate HasMalformedEntry(credential: Value) {
    exists k :: 0 <= k < |StatusEntries(credential)| && ClassifyStatusEntry(StatusEntries(credential)[k]).Malformed?
  }

  /** How many of the first `k` entries are checked, and the types and purposes that keep others out, in order. */
  function Sorted(credential: Value, k: nat): (nat, seq<string>, seq<string>)
    requires k <= |StatusEntries(credential)|
  {
    if k == 0 then (0, [], [])
    else
      var (checked, types, purposes) := Sorted(credential, k - 1);
      match ClassifyStatusEntry(StatusEntries(credential)[k - 1])
      case CheckedEntry => (checked + 1, types, purposes)
      case OtherType(type_) => (checked, types + [type_], purposes)
      case OtherPurpose(purpose) => (checked, types, purposes + [purpose])
      case Malformed(_) => (checked, types, purposes)
  }

  /** Every entry is counted once: as checked, as of another type or purpose, or as malformed. */
  lemma {:induction false} SortedOnce(credential: Value, k: nat)
    requires k <= |StatusEntries(credential)|
    ensures var (checked, types, purposes) := Sorted(credential, k);
            && checked + |types| + |purposes| + |MalformedProblems(credential, k)| == k
            && (forall t :: t in types <==> exists i :: 0 <= i < k && ClassifyStatusEntry(StatusEntries(credential)[i]) == OtherType(t))
            && (forall t :: t in purposes <==> exists i :: 0 <= i < k && ClassifyStatusEntry(StatusEntries(credential)[i]) == OtherPurpose(t))
  {
    hide StatusEntries, ClassifyStatusEntry, MalformedProblem;
    if k > 0 {
      SortedOnce(credential, k - 1);
    }
  }

  /** The entries sorted: how many are checked, what kept others out, and the problem of each malformed one, in order. */
  method SortStatusEntries(credential: Value)
    returns (empty: bool, checked: nat, otherTypes: seq<string>, otherPurposes: seq<string>, malformed: seq<R.Problem>)
    ensures empty <==> StatusEntries(credential) == []
    ensures (checked, otherTypes, otherPurposes) == Sorted(credential, |StatusEntries(credential)|)
    ensures malformed == MalformedProblems(credential, |StatusEntries(credential)|)
    ensures checked + |otherTypes| + |otherPurposes| + |malformed| == |StatusEntries(credential)|
    ensures checked > 0 <==> HasCheckedEntry(credential)
    ensures malformed != [] <==> HasMalformedEntry(credential)
  {
    hide StatusEntries, ClassifyStatusEntry, MalformedProblem;
    var entries := StatusEntries(credential);
    checked, otherTypes, otherPurposes, malformed := 0, [], [], [];
    for i := 0 to |entries|
      invariant checked > 0 <==> exists k :: 0 <= k < i && ClassifyStatusEntry(entries[k]).CheckedEntry?
      invariant (checked, otherTypes, otherPurposes) == Sorted(credential, i)
      invariant malformed == MalformedProblems(credential, i)
      invariant malformed != [] <==> exists k :: 0 <= k < i && ClassifyStatusEntry(entries[k]).Malformed?
    {
      match ClassifyStatusEntry(entries[i]) {
        case CheckedEntry => checked := checked + 1;
        case OtherType(type_) => otherTypes := otherTypes + [type_];
        case OtherPurpose(purpose) => otherPurposes := otherPurposes + [purpose];
        case Malformed(field) => malformed := malformed + [MalformedProblem(credential, i, field)];
      }
    }
    SortedOnce(credential, |entries|);
    empty := entries == [];
  }

  // ----- the lists to load -----

  /** The list an entry names, if it is checked and names one. */
  function ListUrl(entry: Value): Option<string> {
    match Member(entry, "statusListCredential")
    case Some(VString(url)) => if ClassifyStatusEntry(entry).CheckedEntry? && url != "" then Some(url) else None
    case _ => None
  }

  /** Some entry is checked and names `url`. */
  predicate Names(credential: Value, url: string) {
    exists k :: 0 <= k < |StatusEntries(credential)| && ListUrl(StatusEntries(credential)[k]) == Some(url)
  }

  function UrlsUpTo(credential: Value, k: nat): seq<string>
    requires k <= |StatusEntries(credential)|
  {
    if k == 0 then []
    else
      var before, url := UrlsUpTo(credential, k - 1), ListUrl(StatusEntries(credential)[k - 1]);
      if url.Some? && url.value !in before then before + [url.value] else before
  }

  function CheckedUrls(credential: Value): seq<string> { UrlsUpTo(credential, |StatusEntries(credential)|) }

  method CheckedStatusListUrls(credential: Value) returns (urls: seq<string>)
    ensures urls == CheckedUrls(credential)
  {
    hide StatusEntries, ClassifyStatusEntry, Member;
    var entries := StatusEntries(credential);
    urls := [];
    for i := 0 to |entries|
      invariant urls == UrlsUpTo(credential, i)
    {
      if !ClassifyStatusEntry(entries[i]).CheckedEntry? {
        continue;
      }
      match Member(entries[i], "statusListCredential") {
        case Some(VString(url)) =>
          if url != "" && url !in urls {
            urls := urls + [url];
          }
        case _ =>
      }
    }
  }

  /** The distinct lists named by checked entries: each once, and nothing else. */
  lemma CheckedUrlsExactly(credential: Value)
    ensures forall url :: url in CheckedUrls(credential) <==> Names(credential, url)
    ensures forall i, j :: 0 <= i < j < |CheckedUrls(credential)| ==> CheckedUrls(credential)[i] != CheckedUrls(credential)[j]
  {
    UrlsUpToExactly(credential, |StatusEntries(credential)|);
  }

  lemma {:induction false} UrlsUpToExactly(credential: Value, k: nat)
    requires k <= |StatusEntries(credential)|
    ensures forall url :: url in UrlsUpTo(credential, k) <==>
              exists i :: 0 <= i < k && ListUrl(StatusEntries(credential)[i]) == Some(url)
    ensures forall i, j :: 0 <= i < j < |UrlsUpTo(credential, k)| ==> UrlsUpTo(credential, k)[i] != UrlsUpTo(credential, k)[j]
  {
    hide StatusEntries, ListUrl;
    if k > 0 {
      UrlsUpToExactly(credential, k - 1);
    }
  }

  /** Where a list is first named by a checked entry. */
  ghost predicate FirstNamedAt(credential: Value, url: string, k: int) {
    && 0 <= k < |StatusEntries(credential)| && ListUrl(StatusEntries(credential)[k]) == Some(url)
    && forall j :: 0 <= j < k ==> ListUrl(StatusEntries(credential)[j]) != Some(url)
  }

  /** One more entry names no new list, or is the first to name one. */
  lemma NewlyNamed(credential: Value, k: nat)
    requires 0 < k <= |StatusEntries(credential)|
    ensures var before, after := UrlsUpTo(credential, k - 1), UrlsUpTo(credential, k);
            after == before || (|after| == |before| + 1 && after[..|before|] == before && FirstNamedAt(credential, after[|before|], k - 1))
  {
    hide StatusEntries, ListUrl;
    var before, url := UrlsUpTo(credential, k - 1), ListUrl(StatusEntries(credential)[k - 1]);
    if url.Some? && url.value !in before {
      NotNamedBefore(credential, k - 1, url.value);
    }
  }

  lemma NotNamedBefore(credential: Value, k: nat, url: string)
    requires k <= |StatusEntries(credential)| && url !in UrlsUpTo(credential, k)
    ensures forall j :: 0 <= j < k ==> ListUrl(StatusEntries(credential)[j]) != Some(url)
  {
    UrlsUpToExactly(credential, k);
    hide StatusEntries, ListUrl, UrlsUpTo;
  }

  lemma {:induction false} UrlsInOrder(credential: Value, k: nat) returns (at: seq<nat>)
    requires k <= |StatusEntries(credential)|
    ensures |at| == |UrlsUpTo(credential, k)|
    ensures forall i :: 0 <= i < |at| ==> at[i] < k && FirstNamedAt(credential, UrlsUpTo(credential, k)[i], at[i])
    ensures forall i, j :: 0 <= i < j < |at| ==> at[i] < at[j]
  {
    hide FirstNamedAt, StatusEntries, ListUrl;
    if k == 0 {
      at := [];
    } else {
      at := UrlsInOrder(credential, k - 1);
      NewlyNamed(credential, k);
      hide UrlsUpTo;
      var before, after := UrlsUpTo(credential, k - 1), UrlsUpTo(credential, k);
      if after != before {
        assert forall i :: 0 <= i < |before| ==> after[i] == before[i];
        at := at + [k - 1];
      }
    }
  }

  /** The lists are looked up in the order in which the credential first names them. */
  lemma CheckedUrlsInOrder(credential: Value) returns (at: seq<nat>)
    ensures |at| == |CheckedUrls(credential)|
    ensures forall i :: 0 <= i < |at| ==> FirstNamedAt(credential, CheckedUrls(credential)[i], at[i])
    ensures forall i, j :: 0 <= i < j < |at| ==> at[i] < at[j]
  {
    at := UrlsInOrder(credential, |StatusEntries(credential)|);
  }

  // ----- issuers -----

  /** The list is signed for by the credential's issuer; an issuer missing on either side never matches. */
  predicate SameIssuer(list: Value, credential: Value) {
    CredentialIssuerId(list).Some? && CredentialIssuerId(list) == CredentialIssuerId(credential)
  }

  // ----- the store -----

  type Lists = map<string, Value>

  class StatusStore {
    /** Lists verified in the current run, by context and then by URL. */
    var verified: map<P.Context, Lists>

    constructor ()
      ensures verified == map[]
    {
      verified := map[];
    }

    method BeginStatusListRun(context: P.Context)
      modifies this
      ensures verified == old(verified)[context := map[]]
    {
      verified := verified[context := map[]];
    }

    /** Outside a run the record is dropped. */
    method RecordVerifiedStatusList(context: P.Context, url: string, list: Value)
      modifies this
      ensures verified == if context in old(verified) then old(verified)[context := old(verified)[context][url := list]] else old(verified)
    {
      if context in verified {
        verified := verified[context := verified[context][url := list]];
      }
    }

    method TakeVerifiedStatusLists(context: P.Context) returns (lists: Lists)
      modifies this
      ensures lists == if context in old(verified) then old(verified)[context] else map[]
      ensures verified == old(verified) - {context}
    {
      lists := if context in verified then verified[context] else map[];
      verified := verified - {context};
    }
  }

  /** Nothing is on record for the context. */
  predicate NoRecords(verified: map<P.Context, Lists>, context: P.Context) {
    context in verified ==> verified[context] == map[]
  }

  // ----- the status library -----

  /** One entry's bit, with the list and the index it was read at. */
  datatype Bit = Bit(suspension: bool, list: string, index: string, set_: bool)

  datatype Conclusion = StatusError(problems: seq<R.Problem>) | Read(bits: seq<Bit>)

  /**
   The library that reads the lists, free to answer every run as it likes: which lists it
   hands to the hook, and what it concludes from the hook's verdicts.
   */
  datatype Library = Library(
    loads: (nat, Value) -> seq<(string, Value)>,
    conclude: (nat, Value, seq<bool>) -> Conclusion)

  /** It hands over only lists that checked entries name. */
  ghost predicate LoadsOnlyChecked(library: Library) {
    forall n, credential, k :: 0 <= k < |library.loads(n, credential)| ==>
      library.loads(n, credential)[k].0 in CheckedUrls(credential)
  }

  function AsSubject(list: Value): Subject { Subject(None, Some(list)) }

  /** What is on record after the hook has seen the first `k` lists, and the number of the next dispatch. */
  function RecordedAfter(services: seq<Service>, n: nat, loads: seq<(string, Value)>, k: nat): (Lists, nat)
    requires k <= |loads|
  {
    if k == 0 then (map[], n)
    else
      var (lists, m) := RecordedAfter(services, n, loads, k - 1);
      var (url, list) := loads[k - 1];
      (if Good(DispatchSet(services, m, AsSubject(list)).combined) then lists[url := list] else lists,
       m + Calls(AsSubject(list)))
  }

  /** What the hook says of the first `k` lists. */
  function HookVerdicts(services: seq<Service>, n: nat, loads: seq<(string, Value)>, k: nat): seq<bool>
    requires k <= |loads|
  {
    if k == 0 then []
    else
      HookVerdicts(services, n, loads, k - 1) +
      [DispatchSet(services, RecordedAfter(services, n, loads, k - 1).1, AsSubject(loads[k - 1].1)).combined.Verified?]
  }

  /** What the library concludes from the hook's verdicts, in a run that starts with the process's `n`-th call. */
  function Concluded(library: Library, services: seq<Service>, n: nat, credential: Value): Conclusion {
    var loads := library.loads(n, credential);
    library.conclude(n, credential, HookVerdicts(services, n + 1, loads, |loads|))
  }

  /** The run gets as far as loading lists. */
  predicate Loads(credential: Option<Value>) {
    Truthy(credential) && !HasMalformedEntry(credential.value) && HasCheckedEntry(credential.value)
  }

  /** The lists one run records, when it starts with the process's `n`-th call. */
  function RecordedBy(library: Library, services: seq<Service>, n: nat, credential: Option<Value>): Lists {
    if !Loads(credential) then map[]
    else
      var loads := library.loads(n, credential.value);
      RecordedAfter(services, n + 1, loads, |loads|).0
  }

  /** The number of the process's next call, after a run that starts with its `n`-th. */
  function NextCall(library: Library, services: seq<Service>, n: nat, credential: Option<Value>): nat {
    if !Loads(credential) then n
    else
      var loads := library.loads(n, credential.value);
      RecordedAfter(services, n + 1, loads, |loads|).1
  }

  lemma {:induction false} OnlyLoadedIsRecorded(services: seq<Service>, n: nat, loads: seq<(string, Value)>, k: nat)
    requires k <= |loads|
    ensures forall url :: url in RecordedAfter(services, n, loads, k).0 ==> exists i :: 0 <= i < k && loads[i].0 == url
  {
    hide Good, DispatchSet, Calls;
    if k > 0 {
      OnlyLoadedIsRecorded(services, n, loads, k - 1);
    }
  }

  lemma OnlyCheckedIsRecorded(library: Library, services: seq<Service>, n: nat, credential: Option<Value>)
    requires LoadsOnlyChecked(library)
    ensures forall url :: url in RecordedBy(library, services, n, credential) ==>
              credential.Some? && url in CheckedUrls(credential.value)
  {
    hide RecordedAfter, CheckedUrls, HasMalformedEntry, HasCheckedEntry;
    if Loads(credential) {
      var loads := library.loads(n, credential.value);
      OnlyLoadedIsRecorded(services, n + 1, loads, |loads|);
    }
  }

  // ----- the list issuers' verdict -----

  /** The recorded lists among `urls` that are not the credential's issuer's own. */
  function Mismatches(urls: seq<string>, lists: Lists, credential: Value): seq<string> {
    if urls == [] then []
    else
      var before, last := Mismatches(urls[..|urls| - 1], lists, credential), urls[|urls| - 1];
      if last in lists && !SameIssuer(lists[last], credential) then before + [last] else before
  }

  function MismatchProblem(url: string): R.Problem { R.Problem(R.StatusListIssuerMismatch, url, None) }

  function MismatchProblems(urls: seq<string>): seq<R.Problem> {
    if urls == [] then [] else MismatchProblems(urls[..|urls| - 1]) + [MismatchProblem(urls[|urls| - 1])]
  }

  const NO_LIST_CHECKED := "no-list-checked"
  const LIST_NOT_VERIFIED := "list-not-verified"

  predicate Unestablished(urls: seq<string>, lists: Lists) { exists url :: url in urls && url !in lists }

  function ListIssuerVerdict(credential: Option<Value>, lists: Lists): R.Outcome {
    if !Truthy(credential) then R.Skipped("no credential", None, None)
    else
      var urls := CheckedUrls(credential.value);
      if urls == [] then R.Skipped("no list", Some(NO_LIST_CHECKED), None)
      else
        var mismatches := Mismatches(urls, lists, credential.value);
        if mismatches != [] then R.Failure(MismatchProblems(mismatches))
        else if Unestablished(urls, lists) then
          R.Skipped("not established",
                    Some(LIST_NOT_VERIFIED), None)
        else R.Success("issued")
  }

  lemma {:induction false} MismatchesExactly(urls: seq<string>, lists: Lists, credential: Value)
    ensures forall url :: url in Mismatches(urls, lists, credential) <==>
              url in urls && url in lists && !SameIssuer(lists[url], credential)
  {
    hide SameIssuer;
    if urls != [] {
      MismatchesExactly(urls[..|urls| - 1], lists, credential);
      assert urls == urls[..|urls| - 1] + [urls[|urls| - 1]];
    }
  }

  lemma {:induction false} MismatchProblemsExactly(urls: seq<string>, p: R.Problem)
    ensures |MismatchProblems(urls)| == |urls|
    ensures p in MismatchProblems(urls) <==> p.detail in urls && p == MismatchProblem(p.detail)
  {
    if urls != [] {
      MismatchProblemsExactly(urls[..|urls| - 1], p);
      assert urls == urls[..|urls| - 1] + [urls[|urls| - 1]];
    }
  }

  /** `url` is checked and on record, and the list is not the credential's issuer's own. */
  predicate Mismatched(credential: Value, lists: Lists, url: string) {
    Names(credential, url) && url in lists && !SameIssuer(lists[url], credential)
  }

  /** `url` is checked and on record, and the list is the credential's issuer's own. */
  predicate Matched(credential: Value, lists: Lists, url: string) {
    url in lists && SameIssuer(lists[url], credential)
  }

  lemma VerdictOfUrls(credential: Value, lists: Lists)
    requires Truthy(Some(credential))
    ensures var (o, urls) := (ListIssuerVerdict(Some(credential), lists), CheckedUrls(credential));
            && (o.Failure? <==> Mismatches(urls, lists, credential) != [])
            && (o.Success? <==> urls != [] && Mismatches(urls, lists, credential) == [] && !Unestablished(urls, lists))
            && (o.Skipped? && o.code == Some(NO_LIST_CHECKED) <==> urls == [])
  {
    hide CheckedUrls, MismatchProblems, SameIssuer, Unestablished, Truthy;
    if CheckedUrls(credential) == [] {
      assert Mismatches([], lists, credential) == [];
    }
  }

  /** Failure, success and each reason to skip, in terms of the lists named and the lists on record. */
  lemma ListIssuerVerdictMeans(credential: Value, lists: Lists)
    requires Truthy(Some(credential))
    ensures var o := ListIssuerVerdict(Some(credential), lists);
            && (o.Failure? <==> exists url :: Mismatched(credential, lists, url))
            && (o.Success? <==>
                  && (exists url :: Names(credential, url))
                  && forall url :: Names(credential, url) ==> Matched(credential, lists, url))
            && (o.Skipped? && o.code == Some(NO_LIST_CHECKED) <==> forall url :: !Names(credential, url))
  {
    VerdictOfUrls(credential, lists);
    UrlsAndMismatches(credential, lists);
    NothingMissingNothingForeign(credential, lists);
    hide *;
  }

  lemma NothingMissingNothingForeign(credential: Value, lists: Lists)
    ensures var urls := CheckedUrls(credential);
            Mismatches(urls, lists, credential) == [] && !Unestablished(urls, lists) <==>
            forall url :: Names(credential, url) ==> Matched(credential, lists, url)
  {
    UrlsAndMismatches(credential, lists);
    CheckedUrlsExactly(credential);
    hide CheckedUrls, Mismatches, Names, Mismatched, SameIssuer;
  }

  lemma UrlsAndMismatches(credential: Value, lists: Lists)
    ensures CheckedUrls(credential) != [] <==> exists url :: Names(credential, url)
    ensures Mismatches(CheckedUrls(credential), lists, credential) != [] <==> exists url :: Mismatched(credential, lists, url)
    ensures forall url :: Names(credential, url) && url in lists && !Matched(credential, lists, url) ==> Mismatched(credential, lists, url)
    ensures forall url :: Mismatched(credential, lists, url) ==> Names(credential, url) && !Matched(credential, lists, url)
  {
    var urls := CheckedUrls(credential);
    var mismatches := Mismatches(urls, lists, credential);
    CheckedUrlsExactly(credential);
    MismatchesExactly(urls, lists, credential);
    hide CheckedUrls, Mismatches, Names, SameIssuer;
    assert urls != [] ==> Names(credential, urls[0]);
    assert mismatches != [] ==> Mismatched(credential, lists, mismatches[0]);
    assert forall url :: Mismatched(credential, lists, url) ==> url in mismatches;
  }

  predicate AllDifferent<T(==)>(s: seq<T>) { forall i, j :: 0 <= i < j < |s| ==> s[i] != s[j] }

  lemma {:induction false} MismatchesDifferent(urls: seq<string>, lists: Lists, credential: Value)
    requires AllDifferent(urls)
    ensures AllDifferent(Mismatches(urls, lists, credential))
  {
    hide SameIssuer;
    if urls != [] {
      MismatchesDifferent(urls[..|urls| - 1], lists, credential);
      MismatchesExactly(urls[..|urls| - 1], lists, credential);
    }
  }

  lemma {:induction false} MismatchProblemAt(urls: seq<string>, k: nat)
    requires k < |urls|
    ensures |MismatchProblems(urls)| == |urls| && MismatchProblems(urls)[k] == MismatchProblem(urls[k])
  {
    MismatchProblemsExactly(urls[..|urls| - 1], MismatchProblem(urls[k]));
    if k < |urls| - 1 {
      MismatchProblemAt(urls[..|urls| - 1], k);
    }
  }

  lemma MismatchProblemsDifferent(urls: seq<string>)
    requires AllDifferent(urls)
    ensures AllDifferent(MismatchProblems(urls))
  {
    forall k | 0 <= k < |urls| ensures |MismatchProblems(urls)| == |urls| && MismatchProblems(urls)[k] == MismatchProblem(urls[k]) {
      MismatchProblemAt(urls, k);
    }
    hide MismatchProblems;
    assert urls == [] ==> MismatchProblems(urls) == [];
  }

  /** A failure carries one problem for each mismatched list, no other, and none twice. */
  lemma EveryMismatchIsReported(credential: Value, lists: Lists, url: string)
    requires Truthy(Some(credential)) && ListIssuerVerdict(Some(credential), lists).Failure?
    ensures MismatchProblem(url) in ListIssuerVerdict(Some(credential), lists).problems <==> Mismatched(credential, lists, url)
    ensures AllDifferent(ListIssuerVerdict(Some(credential), lists).problems)
  {
    CheckedUrlsExactly(credential);
    MismatchesExactly(CheckedUrls(credential), lists, credential);
    MismatchesDifferent(CheckedUrls(credential), lists, credential);
    MismatchProblemsExactly(Mismatches(CheckedUrls(credential), lists, credential), MismatchProblem(url));
    MismatchProblemsDifferent(Mismatches(CheckedUrls(credential), lists, credential));
    hide CheckedUrls, Mismatches, MismatchProblems, Names, SameIssuer, Truthy;
  }

  ghost predicate SharedIssuer(list: Value, credential: Value) {
    exists id :: IssuedBy(list, id) && IssuedBy(credential, id)
  }

  /** The entry is for a Bitstring list and one of the two purposes that are checked. */
  ghost predicate Checks(entry: Value) {
    && entry.VObject? && "type" in entry.fields && "statusPurpose" in entry.fields
    && (entry.fields["type"] == VString("BitstringStatusListEntry") ||
        (entry.fields["type"].VArray? && VString("BitstringStatusListEntry") in entry.fields["type"].items))
    && (entry.fields["statusPurpose"] == VString("revocation") || entry.fields["statusPurpose"] == VString("suspension"))
  }

  /** `entry` is the credential's status, or one of them. */
  ghost predicate IsStatusOf(entry: Value, credential: Value) {
    && credential.VObject? && "credentialStatus" in credential.fields
    && var status := credential.fields["credentialStatus"];
       if status.VArray? then entry in status.items
       else entry == status && status !in [VNull, VBool(false), VNumber(0.0), VString("")]
  }

  /** A checked status entry of the credential names the list at `url`. */
  ghost predicate NamesList(credential: Value, url: string) {
    exists entry ::
      && IsStatusOf(entry, credential) && Checks(entry)
      && url != "" && "statusListCredential" in entry.fields && entry.fields["statusListCredential"] == VString(url)
  }

  lemma SharedIssuerIs(list: Value, credential: Value)
    ensures SharedIssuer(list, credential) <==> SameIssuer(list, credential)
  {
    forall id ensures IssuedBy(list, id) <==> CredentialIssuerId(list) == Some(id) { IssuerIs(list, id); }
    forall id ensures IssuedBy(credential, id) <==> CredentialIssuerId(credential) == Some(id) { IssuerIs(credential, id); }
    hide IssuedBy, CredentialIssuerId;
    if SameIssuer(list, credential) {
      assert IssuedBy(list, CredentialIssuerId(list).value);
    }
  }

  lemma ChecksIs(entry: Value)
    ensures Checks(entry) <==> ClassifyStatusEntry(entry).CheckedEntry?
  {
    assert CHECKED_STATUS_PURPOSES[0] == "revocation" && CHECKED_STATUS_PURPOSES[1] == "suspension";
    var types := StringValues(Member(entry, "type"));
    assert types == [] ==> "BitstringStatusListEntry" !in types;
  }

  lemma StatusIs(entry: Value, credential: Value)
    ensures IsStatusOf(entry, credential) <==> entry in StatusEntries(credential)
  {
  }

  /** The lists the checks look up are those that the document's own checked entries name. */
  lemma NamesExactly(credential: Value, url: string)
    ensures Names(credential, url) <==> NamesList(credential, url)
  {
    forall entry ensures IsStatusOf(entry, credential) <==> entry in StatusEntries(credential) { StatusIs(entry, credential); }
    forall entry ensures Checks(entry) <==> ClassifyStatusEntry(entry).CheckedEntry? { ChecksIs(entry); }
    forall entry ensures ListUrl(entry) == Some(url) <==>
                         Checks(entry) && url != "" && "statusListCredential" in entry.fields &&
                         entry.fields["statusListCredential"] == VString(url)
    {
    }
    hide IsStatusOf, Checks, ClassifyStatusEntry, StatusEntries, ListUrl;
    if Names(credential, url) {
      var k :| 0 <= k < |StatusEntries(credential)| && ListUrl(StatusEntries(credential)[k]) == Some(url);
      assert StatusEntries(credential)[k] in StatusEntries(credential);
    }
  }

  /**
   `status.list-issuer`, read off the documents: it fails iff a list that a checked entry names is
   on record and does not share the credential's issuer; it succeeds iff some checked entry names a list, and every such
   list is on record and shares it.
   */
  lemma ListIssuerVerdictExactly(credential: Value, lists: Lists)
    requires Truthy(Some(credential))
    ensures var o := ListIssuerVerdict(Some(credential), lists);
            && (o.Failure? <==> exists url :: NamesList(credential, url) && url in lists && !SharedIssuer(lists[url], credential))
            && (o.Success? <==>
                  && (exists url :: NamesList(credential, url))
                  && forall url :: NamesList(credential, url) ==> url in lists && SharedIssuer(lists[url], credential))
  {
    ListIssuerVerdictMeans(credential, lists);
    forall url
      ensures Names(credential, url) <==> NamesList(credential, url)
      ensures Mismatched(credential, lists, url) <==> NamesList(credential, url) && url in lists && !SharedIssuer(lists[url], credential)
      ensures Matched(credential, lists, url) <==> url in lists && SharedIssuer(lists[url], credential)
    {
      NamesExactly(credential, url);
      if url in lists {
        SharedIssuerIs(lists[url], credential);
      }
      hide Names, NamesList, SharedIssuer, SameIssuer;
    }
    hide ListIssuerVerdict, Names, NamesList, SharedIssuer, Mismatched, Matched, Truthy;
  }

  const UNLISTED_ENTRY := VObject(map["type" := VString(BITSTRING_ENTRY_TYPE), "statusPurpose" := VString("revocation")])
  const UNLISTED := VObject(map["credentialStatus" := UNLISTED_ENTRY])

  /** A credential whose run begins but looks nothing up: its one checked entry names no list. */
  lemma UnlistedLeavesAMap()
    ensures Loads(Some(UNLISTED)) && CheckedUrls(UNLISTED) == []
  {
    assert Member(UNLISTED_ENTRY, "type") == Some(VString(BITSTRING_ENTRY_TYPE));
    assert StringValues(Member(UNLISTED_ENTRY, "type")) == [BITSTRING_ENTRY_TYPE];
    assert Member(UNLISTED_ENTRY, "statusPurpose") == Some(VString("revocation"));
    assert CHECKED_STATUS_PURPOSES[0] == "revocation";
    assert ClassifyStatusEntry(UNLISTED_ENTRY) == CheckedEntry;
    assert Member(UNLISTED, "credentialStatus") == Some(UNLISTED_ENTRY);
    assert StatusEntries(UNLISTED) == [UNLISTED_ENTRY];
    assert StatusEntries(UNLISTED)[0] == UNLISTED_ENTRY;
    hide ClassifyStatusEntry, StatusEntries;
    assert ListUrl(UNLISTED_ENTRY) == None;
    assert UrlsUpTo(UNLISTED, 1) == UrlsUpTo(UNLISTED, 0);
  }

  // ----- the suite -----

  function BitProblem(bit: Bit): R.Problem {
    R.Problem(R.OtherProblem(if bit.suspension then "CREDENTIAL_SUSPENDED" else "CREDENTIAL_REVOKED"),
              bit.list + " " + bit.index, None)
  }

  function BitProblems(bits: seq<Bit>): seq<R.Problem> {
    if bits == [] then []
    else BitProblems(bits[..|bits| - 1]) + if bits[|bits| - 1].set_ then [BitProblem(bits[|bits| - 1])] else []
  }

  /** The verdict of `status.bitstring`, in a run that starts with the process's `n`-th call. */
  function BitstringVerdict(library: Library, services: seq<Service>, n: nat, credential: Option<Value>): R.Outcome {
    if !Truthy(credential) then R.Skipped("no credential", None, None)
    else if StatusEntries(credential.value) == [] then R.Skipped("no status", None, None)
    else if HasMalformedEntry(credential.value) then
      R.Failure(MalformedProblems(credential.value, |StatusEntries(credential.value)|))
    else if !HasCheckedEntry(credential.value) then R.Skipped("none checked", None, None)
    else
      match Concluded(library, services, n, credential.value)
      case StatusError(problems) => R.Failure(problems)
      case Read(bits) => if BitProblems(bits) != [] then R.Failure(BitProblems(bits)) else R.Success("valid")
  }

  /** How many set bits a problem stands for. */
  function SetBits(bits: seq<Bit>, p: R.Problem): nat {
    if bits == [] then 0
    else SetBits(bits[..|bits| - 1], p) + if bits[|bits| - 1].set_ && BitProblem(bits[|bits| - 1]) == p then 1 else 0
  }

  lemma {:induction false} SetBitsAreReported(bits: seq<Bit>, p: R.Problem)
    ensures p in BitProblems(bits) <==> exists bit :: bit in bits && bit.set_ && p == BitProblem(bit)
  {
    hide BitProblem;
    if bits != [] {
      SetBitsAreReported(bits[..|bits| - 1], p);
      assert bits == bits[..|bits| - 1] + [bits[|bits| - 1]];
    }
  }

  /** Each set bit is reported once: a problem occurs as often as there are set bits it stands for. */
  lemma {:induction false} EverySetBitIsReported(bits: seq<Bit>, p: R.Problem)
    ensures multiset(BitProblems(bits))[p] == SetBits(bits, p)
  {
    hide BitProblem;
    if bits != [] {
      EverySetBitIsReported(bits[..|bits| - 1], p);
    }
  }

  /**
   A credential passes iff its entries are well formed, some entry is checked, and every bit
   was read and none is set; it is skipped iff no entry is malformed or checked.
   */
  lemma BitstringVerdictMeans(library: Library, services: seq<Service>, n: nat, credential: Option<Value>)
    ensures var o := BitstringVerdict(library, services, n, credential);
            && (o.Success? <==>
                  && Loads(credential)
                  && Concluded(library, services, n, credential.value).Read?
                  && forall bit :: bit in Concluded(library, services, n, credential.value).bits ==> !bit.set_)
            && (o.Skipped? <==>
                  Truthy(credential) ==> !HasMalformedEntry(credential.value) && !HasCheckedEntry(credential.value))
  {
    hide Concluded;
    if Loads(credential) && Concluded(library, services, n, credential.value).Read? {
      var bits := Concluded(library, services, n, credential.value).bits;
      forall bit | bit in bits ensures bit.set_ ==> BitProblems(bits) != [] {
        SetBitsAreReported(bits, BitProblem(bit));
      }
      if BitProblems(bits) != [] {
        SetBitsAreReported(bits, BitProblems(bits)[0]);
      }
    }
    hide BitProblems, MalformedProblems;
  }

  // ----- the verdict of `status.bitstring`, read off the documents -----

  ghost predicate TypeIs(entry: Value, type_: string) {
    || Has(entry, "type", VString(type_))
    || exists types :: Has(entry, "type", VArray(types)) && VString(type_) in types
  }

  /** The entry is no object, or has no type that is a string, or is for a Bitstring list and has no purpose that is a string. */
  ghost predicate IllFormed(entry: Value) {
    || !entry.VObject?
    || (forall type_ :: !TypeIs(entry, type_))
    || (TypeIs(entry, "BitstringStatusListEntry") && forall purpose :: !Has(entry, "statusPurpose", VString(purpose)))
  }

  /** The property an ill-formed entry is reported at, if it is an object. */
  ghost predicate IllAt(entry: Value, field: Option<string>) {
    match field
    case None => !entry.VObject?
    case Some(name) =>
      entry.VObject? &&
      if exists type_ :: TypeIs(entry, type_) then name == "statusPurpose" && TypeIs(entry, "BitstringStatusListEntry") else name == "type"
  }

  lemma TypesAre(entry: Value, type_: string)
    ensures TypeIs(entry, type_) <==> type_ in StringValues(Member(entry, "type"))
  {
  }

  /** An entry is reported as malformed iff it is ill formed, and at the offending property. */
  lemma IllFormedIs(entry: Value)
    ensures IllFormed(entry) <==> ClassifyStatusEntry(entry).Malformed?
    ensures IllFormed(entry) ==> IllAt(entry, ClassifyStatusEntry(entry).field)
  {
    forall type_ ensures TypeIs(entry, type_) <==> type_ in StringValues(Member(entry, "type")) { TypesAre(entry, type_); }
    MemberIs(entry, "statusPurpose");
    var types := StringValues(Member(entry, "type"));
    hide TypeIs, StringValues, Member, Has;
    if types != [] {
      assert types[0] in types && TypeIs(entry, types[0]);
    }
  }

  ghost predicate SomeChecked(credential: Value) { exists entry :: IsStatusOf(entry, credential) && Checks(entry) }

  ghost predicate SomeIllFormed(credential: Value) { exists entry :: IsStatusOf(entry, credential) && IllFormed(entry) }

  /** `entry` is the credential's status entry number `k`, and `tokens` lead to it. */
  ghost predicate StatusAt(credential: Value, k: nat, tokens: seq<string>, entry: Value) {
    && IsStatusOf(entry, credential)
    && var status := credential.fields["credentialStatus"];
       if status.VArray? then k < |status.items| && entry == status.items[k] && tokens == ["credentialStatus", Strings.Numeral(k)]
       else k == 0 && tokens == ["credentialStatus"]
  }

  /** The problem says that this entry is ill formed: its `instance`, read as a pointer, leads there. */
  ghost predicate LocatesAt(p: R.Problem, credential: Value, k: nat, tokens: seq<string>, entry: Value, field: Option<string>) {
    && StatusAt(credential, k, tokens, entry) && IllFormed(entry) && IllAt(entry, field)
    && p.kind == R.MalformedValueError && p.instance.Some?
    && Parse(p.instance.value) == Some(if field.Some? then tokens + [field.value] else tokens)
  }

  ghost predicate Locates(p: R.Problem, credential: Value, k: nat) {
    exists tokens, entry, field :: LocatesAt(p, credential, k, tokens, entry, field)
  }

  /** The problems are for the ill-formed ones of the first `n` entries, one for each and in order: `ks` are their numbers. */
  ghost predicate LocatesAll(problems: seq<R.Problem>, credential: Value, n: nat, ks: seq<nat>) {
    && |ks| == |problems|
    && (forall a, b :: 0 <= a < b < |ks| ==> ks[a] < ks[b])
    && (forall k: nat, tokens, entry :: k < n && StatusAt(credential, k, tokens, entry) && IllFormed(entry) ==> k in ks)
    && forall j :: 0 <= j < |ks| ==> ks[j] < n && Locates(problems[j], credential, ks[j])
  }

  lemma EntryAt(credential: Value, k: nat)
    requires k < |StatusEntries(credential)|
    ensures StatusAt(credential, k, Texts(EntryPlace(credential, k)), StatusEntries(credential)[k])
    ensures forall tokens, entry :: StatusAt(credential, k, tokens, entry) ==> entry == StatusEntries(credential)[k]
  {
  }

  lemma PlaceReadBack(credential: Value, k: nat, field: Option<string>)
    ensures Parse(MalformedProblem(credential, k, field).instance.value) ==
            Some(if field.Some? then Texts(EntryPlace(credential, k)) + [field.value] else Texts(EntryPlace(credential, k)))
  {
    hide EntryPlace, Parse, FormatJsonPointer, Texts;
    TextsWith(EntryPlace(credential, k), field);
    ParseFormat(EntryPlace(credential, k) + if field.Some? then [Name(field.value)] else []);
  }

  lemma TextsWith(place: Pointer, field: Option<string>)
    ensures Texts(place + if field.Some? then [Name(field.value)] else []) == if field.Some? then Texts(place) + [field.value] else Texts(place)
  {
  }

  lemma EntryLocated(credential: Value, k: nat, field: Option<string>)
    requires k < |StatusEntries(credential)| && ClassifyStatusEntry(StatusEntries(credential)[k]) == Malformed(field)
    ensures Locates(MalformedProblem(credential, k, field), credential, k)
  {
    var entry, tokens := StatusEntries(credential)[k], Texts(EntryPlace(credential, k));
    hide StatusAt, IllFormed, IllAt, EntryPlace, StatusEntries, ClassifyStatusEntry, Parse, FormatJsonPointer, Texts;
    EntryAt(credential, k);
    IllFormedIs(entry);
    PlaceReadBack(credential, k, field);
    assert LocatesAt(MalformedProblem(credential, k, field), credential, k, tokens, entry, field);
  }

  /** Entry number `n` joins the first `n`: reported if it is ill formed, passed over otherwise. */
  lemma LocatesOneMore(problems: seq<R.Problem>, credential: Value, n: nat, ks: seq<nat>, last: Option<R.Problem>)
    requires LocatesAll(problems, credential, n, ks)
    requires last.Some? ==> Locates(last.value, credential, n)
    requires last.None? ==> forall tokens, entry :: StatusAt(credential, n, tokens, entry) ==> !IllFormed(entry)
    ensures LocatesAll(if last.Some? then problems + [last.value] else problems, credential, n + 1, if last.Some? then ks + [n] else ks)
  {
    hide StatusAt, IllFormed, Locates;
  }

  /** What the `k`-th entry is reported with, if it is malformed. */
  function ProblemOf(credential: Value, k: nat): Option<R.Problem>
    requires k < |StatusEntries(credential)|
  {
    match ClassifyStatusEntry(StatusEntries(credential)[k])
    case Malformed(field) => Some(MalformedProblem(credential, k, field))
    case _ => None
  }

  lemma ProblemLocated(credential: Value, k: nat)
    requires k < |StatusEntries(credential)|
    ensures var last := ProblemOf(credential, k);
            && (last.Some? ==> Locates(last.value, credential, k))
            && (last.None? ==> forall tokens, entry :: StatusAt(credential, k, tokens, entry) ==> !IllFormed(entry))
  {
    var entry := StatusEntries(credential)[k];
    var class_ := ClassifyStatusEntry(entry);
    assert ProblemOf(credential, k) == if class_.Malformed? then Some(MalformedProblem(credential, k, class_.field)) else None;
    hide *;
    EntryAt(credential, k);
    IllFormedIs(entry);
    if class_.Malformed? {
      EntryLocated(credential, k, class_.field);
    }
  }

  lemma ProblemsStep(credential: Value, n: nat)
    requires 0 < n <= |StatusEntries(credential)|
    ensures var (before, last) := (MalformedProblems(credential, n - 1), ProblemOf(credential, n - 1));
            MalformedProblems(credential, n) == if last.Some? then before + [last.value] else before
  {
    hide ClassifyStatusEntry, MalformedProblem, StatusEntries;
  }

  lemma {:induction false} IllFormedLocated(credential: Value, n: nat) returns (ks: seq<nat>)
    requires n <= |StatusEntries(credential)|
    ensures LocatesAll(MalformedProblems(credential, n), credential, n, ks)
  {
    hide StatusEntries, ClassifyStatusEntry, MalformedProblem, StatusAt, IllFormed, Locates;
    ks := [];
    if n > 0 {
      hide *;
      ks := IllFormedLocated(credential, n - 1);
      var last := ProblemOf(credential, n - 1);
      ProblemLocated(credential, n - 1);
      ProblemsStep(credential, n);
      LocatesOneMore(MalformedProblems(credential, n - 1), credential, n - 1, ks, last);
      ks := if last.Some? then ks + [n - 1] else ks;
    }
  }

  lemma EntriesCounted(credential: Value)
    ensures forall k: nat, tokens, entry :: StatusAt(credential, k, tokens, entry) ==> k < |StatusEntries(credential)|
  {
  }

  /** The problems are for the credential's ill-formed entries, one for each, in order and at the property at fault. */
  ghost predicate LocatesIllFormed(problems: seq<R.Problem>, credential: Value) {
    exists n, ks ::
      && (forall k: nat, tokens, entry :: StatusAt(credential, k, tokens, entry) ==> k < n)
      && LocatesAll(problems, credential, n, ks)
  }

  /** A credential with ill-formed status entries fails, with their problems. */
  lemma IllFormedExactly(library: Library, services: seq<Service>, n: nat, credential: Value)
    requires SomeIllFormed(credential) && Truthy(Some(credential))
    ensures var o := BitstringVerdict(library, services, n, Some(credential));
            o.Failure? && LocatesIllFormed(o.problems, credential)
  {
    SomeAre(credential);
    var problems := MalformedProblems(credential, |StatusEntries(credential)|);
    assert BitstringVerdict(library, services, n, Some(credential)) == R.Failure(problems) by {
      EmptyStatus(credential);
      hide SomeIllFormed, SomeChecked, HasMalformedEntry, HasCheckedEntry, Truthy, MalformedProblems, Concluded;
    }
    var ks := IllFormedLocated(credential, |StatusEntries(credential)|);
    EntriesCounted(credential);
    hide SomeIllFormed, Truthy, MalformedProblems, StatusAt, LocatesAll, StatusEntries, BitstringVerdict;
  }

  /** The problem a set bit is reported with: by its purpose, naming its list and index. */
  ghost predicate Reports(p: R.Problem, bit: Bit) {
    && p.kind == R.OtherProblem(if bit.suspension then "CREDENTIAL_SUSPENDED" else "CREDENTIAL_REVOKED")
    && p.detail == bit.list + " " + bit.index
  }

  lemma SomeAre(credential: Value)
    ensures SomeChecked(credential) <==> HasCheckedEntry(credential)
    ensures SomeIllFormed(credential) <==> HasMalformedEntry(credential)
  {
    var entries := StatusEntries(credential);
    forall entry
      ensures IsStatusOf(entry, credential) <==> entry in entries
      ensures Checks(entry) <==> ClassifyStatusEntry(entry).CheckedEntry?
      ensures IllFormed(entry) <==> ClassifyStatusEntry(entry).Malformed?
    {
      StatusIs(entry, credential);
      ChecksIs(entry);
      IllFormedIs(entry);
    }
    hide IsStatusOf, Checks, IllFormed, ClassifyStatusEntry, StatusEntries;
    assert forall k :: 0 <= k < |entries| ==> entries[k] in entries;
  }

  /**
   `status.bitstring`, read off the credential and what the library concludes: skipped iff no status entry is
   ill formed or checked; a success iff none is ill formed, some is checked and every bit was read as clear; otherwise a failure,
   with the library's own problems if it could not read the lists, and with one for each set bit if it could.
   */
  lemma BitstringVerdictExactly(library: Library, services: seq<Service>, n: nat, credential: Value)
    requires Truthy(Some(credential))
    ensures var (o, concluded) := (BitstringVerdict(library, services, n, Some(credential)), Concluded(library, services, n, credential));
            && (o.Skipped? <==> !SomeIllFormed(credential) && !SomeChecked(credential))
            && (o.Success? <==>
                  && !SomeIllFormed(credential) && SomeChecked(credential) && concluded.Read?
                  && forall bit :: bit in concluded.bits ==> !bit.set_)
            && (!SomeIllFormed(credential) && SomeChecked(credential) && concluded.StatusError? ==> o == R.Failure(concluded.problems))
            && (!SomeIllFormed(credential) && SomeChecked(credential) && concluded.Read? && o.Failure? ==>
                  forall p :: p in o.problems <==> exists bit :: bit in concluded.bits && bit.set_ && p.instance.None? && Reports(p, bit))
  {
    SomeAre(credential);
    BitstringVerdictMeans(library, services, n, Some(credential));
    var concluded := Concluded(library, services, n, credential);
    if concluded.Read? {
      forall p ensures p in BitProblems(concluded.bits) <==> exists bit :: bit in concluded.bits && bit.set_ && p.instance.None? && Reports(p, bit) {
        SetBitsAreReported(concluded.bits, p);
        assert forall bit :: p == BitProblem(bit) <==> p.instance.None? && Reports(p, bit);
        hide BitProblem, Reports;
      }
    }
    EmptyStatus(credential);
    hide Concluded, BitProblems, Reports, SomeChecked, SomeIllFormed, HasCheckedEntry, HasMalformedEntry, Truthy, MalformedProblems;
  }

  lemma EmptyStatus(credential: Value)
    ensures StatusEntries(credential) == [] ==> !HasMalformedEntry(credential) && !HasCheckedEntry(credential)
  {
  }

  class StatusSuite {
    const store: StatusStore
    const library: Library
    /** How many calls out the process has made. */
    var calls: nat

    constructor (store: StatusStore, library: Library)
      ensures this.store == store && this.library == library && calls == 0
    {
      this.store := store;
      this.library := library;
      calls := 0;
    }

    /** The hook: verify one list's proofs, record it when its signer is known, and say whether the list stands. */
    method VerifyStatusList(context: P.Context, url: string, list: Value) returns (verified: bool)
      modifies store, `calls
      ensures var d := DispatchSet(context.services, old(calls), Subject(None, Some(list))).combined;
              && verified == d.Verified?
              && calls == old(calls) + Calls(Subject(None, Some(list)))
              && store.verified ==
                 if (d.Verified? || (d.Rejected? && d.proofVerified)) && context in old(store.verified)
                 then old(store.verified)[context := old(store.verified)[context][url := list]]
                 else old(store.verified)
    {
      hide DispatchSet, Calls;
      var dispatched := DispatchSet(context.services, calls, AsSubject(list)).combined;
      calls := calls + Calls(AsSubject(list));
      if dispatched.Verified? {
        store.RecordVerifiedStatusList(context, url, list);
        return true;
      }
      if dispatched.Rejected? && dispatched.proofVerified {
        store.RecordVerifiedStatusList(context, url, list);
      }
      return false;
    }

    /** The library's run over the lists it loads, each handed to the hook. */
    method CheckStatus(context: P.Context, credential: Value) returns (c: Conclusion)
      requires context in store.verified && store.verified[context] == map[]
      modifies store, `calls
      ensures var loads := library.loads(old(calls), credential);
              store.verified == old(store.verified)[context := RecordedAfter(context.services, old(calls) + 1, loads, |loads|).0]
      ensures calls == RecordedAfter(context.services, old(calls) + 1, library.loads(old(calls), credential),
                                     |library.loads(old(calls), credential)|).1
      ensures c == Concluded(library, context.services, old(calls), credential)
    {
      hide DispatchSet, Calls;
      var run := calls;
      var loads := library.loads(run, credential);
      calls := calls + 1;
      var verdicts := [];
      assert old(store.verified)[context := map[]] == old(store.verified);
      for k := 0 to |loads|
        invariant store.verified == old(store.verified)[context := RecordedAfter(context.services, run + 1, loads, k).0]
        invariant calls == RecordedAfter(context.services, run + 1, loads, k).1
        invariant verdicts == HookVerdicts(context.services, run + 1, loads, k)
      {
        var verdict := VerifyStatusList(context, loads[k].0, loads[k].1);
        verdicts := verdicts + [verdict];
      }
      c := library.conclude(run, credential, verdicts);
    }

    /** `status.bitstring`. A run begins only when there is something to load. */
    method BitstringStatusCheck(credential: Option<Value>, context: P.Context) returns (o: R.Outcome)
      modifies store, `calls
      ensures store.verified ==
              if Loads(credential)
              then old(store.verified)[context := RecordedBy(library, context.services, old(calls), credential)]
              else old(store.verified)
      ensures o == BitstringVerdict(library, context.services, old(calls), credential)
      ensures calls == NextCall(library, context.services, old(calls), credential)
    {
      hide HasMalformedEntry, HasCheckedEntry, MalformedProblems, RecordedAfter, Concluded, BitProblems;
      if !Truthy(credential) {
        return R.Skipped("no credential", None, None);
      }
      var empty, checked, otherTypes, otherPurposes, malformed := SortStatusEntries(credential.value);
      if empty {
        NoEntriesNoClass(credential.value);
        return R.Skipped("no status", None, None);
      }
      if malformed != [] {
        return R.Failure(malformed);
      }
      if checked == 0 {
        return R.Skipped("none checked", None, None);
      }
      store.BeginStatusListRun(context);
      var conclusion := CheckStatus(context, credential.value);
      match conclusion {
        case StatusError(problems) => return R.Failure(problems);
        case Read(bits) =>
          o := if BitProblems(bits) != [] then R.Failure(BitProblems(bits))
               else R.Success("valid");
      }
    }

    lemma NoEntriesNoClass(credential: Value)
      requires StatusEntries(credential) == []
      ensures !HasMalformedEntry(credential) && !HasCheckedEntry(credential)
    {
    }

    /** Compare each list on record, and note whether one is missing. */
    method CompareIssuers(urls: seq<string>, lists: Lists, credential: Value)
      returns (problems: seq<R.Problem>, unestablished: bool)
      ensures problems == MismatchProblems(Mismatches(urls, lists, credential))
      ensures problems == [] <==> Mismatches(urls, lists, credential) == []
      ensures unestablished <==> Unestablished(urls, lists)
    {
      hide SameIssuer;
      problems, unestablished := [], false;
      for i := 0 to |urls|
        invariant problems == MismatchProblems(Mismatches(urls[..i], lists, credential))
        invariant unestablished <==> Unestablished(urls[..i], lists)
      {
        assert urls[..i + 1] == urls[..i] + [urls[i]];
        ghost var before := Mismatches(urls[..i], lists, credential);
        assert (before + [urls[i]])[..|before|] == before;
        if urls[i] !in lists {
          unestablished := true;
        } else if !SameIssuer(lists[urls[i]], credential) {
          problems := problems + [MismatchProblem(urls[i])];
        }
      }
      assert urls[..|urls|] == urls;
      MismatchCount(Mismatches(urls, lists, credential));
    }

    /** `status.list-issuer`. The store is emptied only when there are lists to look up in it. */
    method ListIssuerCheck(credential: Option<Value>, context: P.Context) returns (o: R.Outcome)
      modifies store
      ensures o == ListIssuerVerdict(credential,
                                     if context in old(store.verified) then old(store.verified)[context] else map[])
      ensures store.verified ==
              if Truthy(credential) && CheckedUrls(credential.value) != [] then old(store.verified) - {context}
              else old(store.verified)
    {
      hide CheckedUrls, Mismatches, MismatchProblems, Unestablished;
      if !Truthy(credential) {
        return R.Skipped("no credential", None, None);
      }
      var urls := CheckedStatusListUrls(credential.value);
      if urls == [] {
        return R.Skipped("no list", Some(NO_LIST_CHECKED), None);
      }
      var lists := store.TakeVerifiedStatusLists(context);
      var problems, unestablished := CompareIssuers(urls, lists, credential.value);
      if problems != [] {
        return R.Failure(problems);
      }
      if unestablished {
        return R.Skipped("not established",
                         Some(LIST_NOT_VERIFIED), None);
      }
      return R.Success("issued");
    }

    lemma MismatchCount(urls: seq<string>)
      ensures MismatchProblems(urls) == [] <==> urls == []
    {
    }

    /**
     One run of the suite. Whatever the first check concluded, the second judges exactly the lists
     that this run's hook recorded, and afterwards nothing is on record. The context's own, empty map stays in the
     store iff one was there or was begun, and no checked entry names a list.
     */
    method RunSuite(credential: Option<Value>, context: P.Context) returns (bitstring: R.Outcome, issuer: R.Outcome)
      requires LoadsOnlyChecked(library) && NoRecords(store.verified, context)
      modifies store, `calls
      ensures bitstring == BitstringVerdict(library, context.services, old(calls), credential)
      ensures issuer == ListIssuerVerdict(credential, RecordedBy(library, context.services, old(calls), credential))
      ensures calls == NextCall(library, context.services, old(calls), credential)
      ensures NoRecords(store.verified, context)
      ensures context in store.verified <==>
              (context in old(store.verified) || Loads(credential)) &&
              !(Truthy(credential) && CheckedUrls(credential.value) != [])
      ensures forall other :: other != context ==>
                (other in store.verified <==> other in old(store.verified)) &&
                (other in store.verified ==> store.verified[other] == old(store.verified)[other])
    {
      hide ListIssuerVerdict, CheckedUrls, HasMalformedEntry, HasCheckedEntry, RecordedAfter;
      OnlyCheckedIsRecorded(library, context.services, calls, credential);
      bitstring := BitstringStatusCheck(credential, context);
      issuer := ListIssuerCheck(credential, context);
    }

    /** Any number of runs on one context, one after the other: each judges its own lists only. */
    method RunSuites(credentials: seq<Option<Value>>, context: P.Context)
      returns (bitstrings: seq<R.Outcome>, issuers: seq<R.Outcome>, starts: seq<nat>)
      requires LoadsOnlyChecked(library) && NoRecords(store.verified, context)
      modifies store, `calls
      ensures |bitstrings| == |issuers| == |credentials| && |starts| == |credentials| + 1
      ensures starts[0] == old(calls)
      ensures forall k :: 0 <= k < |credentials| ==>
                && bitstrings[k] == BitstringVerdict(library, context.services, starts[k], credentials[k])
                && issuers[k] == ListIssuerVerdict(credentials[k], RecordedBy(library, context.services, starts[k], credentials[k]))
                && starts[k + 1] == NextCall(library, context.services, starts[k], credentials[k])
      ensures NoRecords(store.verified, context)
    {
      hide BitstringVerdict, ListIssuerVerdict, RecordedBy, NextCall, LoadsOnlyChecked, NoRecords;
      bitstrings, issuers, starts := [], [], [calls];
      for k := 0 to |credentials|
        invariant |bitstrings| == |issuers| == k && |starts| == k + 1
        invariant starts[0] == old(calls) && starts[k] == calls
        invariant forall j :: 0 <= j < k ==>
                    && bitstrings[j] == BitstringVerdict(library, context.services, starts[j], credentials[j])
                    && issuers[j] == ListIssuerVerdict(credentials[j], RecordedBy(library, context.services, starts[j], credentials[j]))
                    && starts[j + 1] == NextCall(library, context.services, starts[j], credentials[j])
        invariant NoRecords(store.verified, context)
      {
        var bitstring, issuer := RunSuite(credentials[k], context);
        bitstrings, issuers, starts := bitstrings + [bitstring], issuers + [issuer], starts + [calls];
      }
    }
  }
}
