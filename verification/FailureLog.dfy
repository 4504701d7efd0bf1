/** The failure log and its index (libreevolve/core/database.py, `log_failure`,
    `log_seed_failure` and `_failure_index_snapshot`). */
module FailureLog {
  import opened Sorting
  import opened Text

  /** A failed program as it is logged; the fingerprint is the hash of what failed. */
  datatype Failure = Failure(programId: string, fingerprint: string, generation: int)

  datatype Record = Record(programId: string, fingerprint: string, generation: int, repetition: nat)

  /** The records of one fingerprint, in log order. */
  function GroupOf(records: seq<Record>, fingerprint: string): seq<Record> {
    if records == [] then []
    else
      var init, last := records[..|records| - 1], records[|records| - 1];
      GroupOf(init, fingerprint) + (if last.fingerprint == fingerprint then [last] else [])
  }

  /** Every record says how often its fingerprint has been logged up to and including it. */
  predicate Numbered(records: seq<Record>) {
    forall i :: 0 <= i < |records| ==> records[i].repetition == |GroupOf(records[..i], records[i].fingerprint)| + 1
  }

  predicate DistinctIds(records: seq<Record>) {
    forall i, j :: 0 <= i < j < |records| ==> records[i].programId != records[j].programId
  }

  // ----- the log

  class ProgramDatabase {
    var failedProgramIds: set<string>
    var failureCounts: map<string, nat>
    var failureRecords: seq<Record>

    ghost predicate Valid()
      reads this
    {
      && Numbered(failureRecords) && DistinctIds(failureRecords)
      && (forall i :: 0 <= i < |failureRecords| ==> failureRecords[i].programId in failedProgramIds)
      && (forall id <- failedProgramIds :: exists i :: 0 <= i < |failureRecords| && failureRecords[i].programId == id)
      && (forall key: string :: Count(key) == |GroupOf(failureRecords, key)|)
    }

    function Count(key: string): nat
      reads this
    {
      if key in failureCounts then failureCounts[key] else 0
    }

    constructor ()
      ensures Valid() && failureRecords == []
    {
      failedProgramIds, failureCounts, failureRecords := {}, map[], [];
    }

    /** Logs a failure.  `historyValid` says whether the identity and generation checks pass,
        `appends` whether the file append goes through.  A failure that is not logged leaves
        counts, ids and records as they were. */
    method LogFailure(f: Failure, historyValid: bool, appends: bool) returns (logged: Option<Record>)
      requires Valid()
      modifies this
      ensures Valid()
      ensures logged.Some? <==>
                && historyValid && appends
                && forall i :: 0 <= i < |old(failureRecords)| ==> old(failureRecords)[i].programId != f.programId
      ensures logged.Some? ==>
                && logged.value
                   == Record(f.programId, f.fingerprint, f.generation,
                             |GroupOf(old(failureRecords), f.fingerprint)| + 1)
                && failureRecords == old(failureRecords) + [logged.value]
      ensures logged.None? ==> unchanged(this)
    {
      hide Numbered, GroupOf;
      var repetition := Count(f.fingerprint) + 1;
      var record := Record(f.programId, f.fingerprint, f.generation, repetition);
      if !historyValid { return None; }
      if f.programId in failedProgramIds { return None; }
      if !appends { return None; }
      failedProgramIds := failedProgramIds + {f.programId};
      failureCounts := failureCounts[f.fingerprint := repetition];
      NumberedSnoc(failureRecords, record);
      forall key: string
        ensures GroupOf(failureRecords + [record], key)
                == GroupOf(failureRecords, key) + (if key == f.fingerprint then [record] else [])
      {
        GroupSnoc(failureRecords, record, key);
      }
      failureRecords := failureRecords + [record];
      assert failureRecords[|failureRecords| - 1] == record;
      forall id <- failedProgramIds ensures exists i :: 0 <= i < |failureRecords| && failureRecords[i].programId == id {
        if id in old(failedProgramIds) {
          var i :| 0 <= i < |old(failureRecords)| && old(failureRecords)[i].programId == id;
          assert failureRecords[i].programId == id;
        }
      }
      return Some(record);
    }
  }

  lemma {:induction false} GroupSnoc(records: seq<Record>, last: Record, key: string)
    ensures GroupOf(records + [last], key) == GroupOf(records, key) + (if last.fingerprint == key then [last] else [])
  {
    assert (records + [last])[..|records|] == records;
  }

  lemma {:induction false} NumberedSnoc(records: seq<Record>, last: Record)
    ensures Numbered(records + [last])
            <==> Numbered(records) && last.repetition == |GroupOf(records, last.fingerprint)| + 1
  {
    var all := records + [last];
    assert all[..|records|] == records && all[|records|] == last;
    assert forall i :: 0 <= i < |records| ==> all[..i] == records[..i] && all[i] == records[i];
    if Numbered(all) {
      assert all[|records|].repetition == |GroupOf(all[..|records|], all[|records|].fingerprint)| + 1;
    }
  }

  /** The records that share a fingerprint carry the repetition counts 1, 2, ..., n in order. */
  lemma {:induction false} RepetitionsCountUp(records: seq<Record>, key: string)
    requires Numbered(records)
    ensures forall j :: 0 <= j < |GroupOf(records, key)| ==>
              GroupOf(records, key)[j].repetition == j + 1 && GroupOf(records, key)[j].fingerprint == key
    decreases |records|
  {
    if records != [] {
      var init, last := records[..|records| - 1], records[|records| - 1];
      assert records == init + [last];
      NumberedSnoc(init, last);
      RepetitionsCountUp(init, key);
    }
  }

  // ----- sort keys

  predicate KeyLeq(a: (int, int, string), b: (int, int, string)) {
    a.0 < b.0 || (a.0 == b.0 && (a.1 < b.1 || (a.1 == b.1 && TextLeq(a.2, b.2))))
  }

  lemma {:induction false} KeyIsTotal()
    ensures forall a, b :: KeyLeq(a, b) || KeyLeq(b, a)
    ensures forall a, b, c :: KeyLeq(a, b) && KeyLeq(b, c) ==> KeyLeq(a, c)
  {
    forall a, b ensures KeyLeq(a, b) || KeyLeq(b, a) { TextIsTotal(a.2, b.2); }
    forall a, b, c | KeyLeq(a, b) && KeyLeq(b, c) ensures KeyLeq(a, c) {
      if TextLeq(a.2, b.2) && TextLeq(b.2, c.2) { TextIsTransitive(a.2, b.2, c.2); }
    }
  }

  // ----- the index

  function RecordKey(r: Record): (int, int, string) { (0 - r.repetition, 0 - r.generation, r.programId) }

  predicate RecordBefore(a: Record, b: Record) { KeyLeq(RecordKey(a), RecordKey(b)) }

  /** One fingerprint of the index. */
  datatype Entry = Entry(
    fingerprint: string, occurrences: nat, maxRepetition: nat, latest: Record, records: seq<Record>)

  function EntryKey(e: Entry): (int, int, string) { (0 - e.maxRepetition, 0 - e.occurrences, e.fingerprint) }

  predicate EntryBefore(a: Entry, b: Entry) { KeyLeq(EntryKey(a), EntryKey(b)) }

  const MAX_FINGERPRINTS := 50
  const MAX_RECORDS := 5

  function MaxRepetition(records: seq<Record>): nat {
    if records == [] then 0
    else
      var rest := MaxRepetition(records[1..]);
      if records[0].repetition > rest then records[0].repetition else rest
  }

  function Reverse<T>(xs: seq<T>): (r: seq<T>)
    ensures |r| == |xs|
    ensures forall i :: 0 <= i < |xs| ==> r[i] == xs[|xs| - 1 - i]
  {
    if xs == [] then [] else [xs[|xs| - 1]] + Reverse(xs[..|xs| - 1])
  }

  /** Records in the order of their repetition counts sort into the reverse order. */
  lemma {:induction false} SortReverses(group: seq<Record>, first: nat)
    requires forall j :: 0 <= j < |group| ==> group[j].repetition == first + j + 1
    ensures Sort(group, RecordBefore) == Reverse(group)
    decreases |group|
  {
    hide Insert;
    if group != [] {
      var rest := group[1..];
      assert group[0].repetition == first + 0 + 1;
      forall j | 0 <= j < |rest| ensures rest[j].repetition == first + 1 + j + 1 {
        assert rest[j] == group[j + 1];
      }
      SortReverses(rest, first + 1);
      InsertLast(group[0], Reverse(rest), RecordBefore);
      assert Reverse(group) == Reverse(rest) + [group[0]];
    }
  }

  lemma {:induction false} MaxIsLength(group: seq<Record>, first: nat)
    requires forall j :: 0 <= j < |group| ==> group[j].repetition == first + j + 1
    ensures MaxRepetition(group) == if group == [] then 0 else first + |group|
    decreases |group|
  {
    if group != [] {
      assert group[0].repetition == first + 0 + 1;
      forall j | 0 <= j < |group[1..]| ensures group[1..][j].repetition == first + 1 + j + 1 {
        assert group[1..][j] == group[j + 1];
      }
      MaxIsLength(group[1..], first + 1);
    }
  }

  function Take<T>(xs: seq<T>, n: nat): seq<T> {
    if |xs| <= n then xs else xs[..n]
  }

  /** The entry of a group as the index builder computes it. */
  function EntryOf(fingerprint: string, group: seq<Record>, limit: nat): Entry
    requires group != [] && limit > 0
  {
    SortPermutes(group, RecordBefore);
    var retained := Take(Sort(group, RecordBefore), limit);
    Entry(fingerprint, |group|, MaxRepetition(group), retained[0], retained)
  }

  /** What an entry of the index promises about the log: the highest repetition count of its
      fingerprint is the number of its records, the latest record is the last one logged,
      and the retained records are the last ones (all, up to the limit) in reverse. */
  predicate Summarises(records: seq<Record>, entry: Entry, limit: nat) {
    var group := GroupOf(records, entry.fingerprint);
    && group != []
    && entry.maxRepetition == entry.occurrences == |group|
    && entry.latest == group[|group| - 1]
    && |entry.records| == (if |group| <= limit then |group| else limit)
    && forall i :: 0 <= i < |entry.records| ==> entry.records[i] == group[|group| - 1 - i]
  }

  lemma {:induction false} EntryMeaning(records: seq<Record>, key: string, limit: nat)
    requires Numbered(records) && GroupOf(records, key) != [] && limit > 0
    ensures EntryOf(key, GroupOf(records, key), limit).fingerprint == key
    ensures Summarises(records, EntryOf(key, GroupOf(records, key), limit), limit)
  {
    hide GroupOf, Sort, Numbered, MaxRepetition;
    var group := GroupOf(records, key);
    RepetitionsCountUp(records, key);
    SortReverses(group, 0);
    MaxIsLength(group, 0);
  }

  // ----- grouping

  /** The fingerprints in the order in which they first appear. */
  function Keys(records: seq<Record>): seq<string> {
    if records == [] then []
    else
      var init, last := Keys(records[..|records| - 1]), records[|records| - 1].fingerprint;
      if last in init then init else init + [last]
  }

  lemma {:induction false} KeysAreTheFingerprints(records: seq<Record>, key: string)
    ensures key in Keys(records) <==> GroupOf(records, key) != []
    decreases |records|
  {
    if records != [] { KeysAreTheFingerprints(records[..|records| - 1], key); }
  }

  lemma {:induction false} KeysAreDistinct(records: seq<Record>)
    ensures forall i, j :: 0 <= i < j < |Keys(records)| ==> Keys(records)[i] != Keys(records)[j]
    decreases |records|
  {
    if records != [] { KeysAreDistinct(records[..|records| - 1]); }
  }

  method GroupByFingerprint(records: seq<Record>) returns (order: seq<string>, groups: map<string, seq<Record>>)
    ensures order == Keys(records)
    ensures forall key <- order :: key in groups && groups[key] == GroupOf(records, key) && groups[key] != []
  {
    order, groups := [], map[];
    for i := 0 to |records|
      invariant order == Keys(records[..i])
      invariant forall key: string :: key in groups <==> GroupOf(records[..i], key) != []
      invariant forall key <- groups :: groups[key] == GroupOf(records[..i], key)
    {
      var r := records[i];
      assert records[..i + 1] == records[..i] + [r];
      forall key: string
        ensures GroupOf(records[..i + 1], key)
                == GroupOf(records[..i], key) + (if r.fingerprint == key then [r] else [])
      {
        GroupSnoc(records[..i], r, key);
      }
      KeysSnoc(records[..i], r);
      KeysAreTheFingerprints(records[..i], r.fingerprint);
      if r.fingerprint !in groups {
        order := order + [r.fingerprint];
        groups := groups[r.fingerprint := []];
      }
      groups := groups[r.fingerprint := groups[r.fingerprint] + [r]];
    }
    assert records[..|records|] == records;
    forall key <- order ensures key in groups && groups[key] == GroupOf(records, key) && groups[key] != [] {
      KeysAreTheFingerprints(records, key);
    }
  }

  lemma {:induction false} KeysSnoc(records: seq<Record>, last: Record)
    ensures Keys(records + [last])
         == if last.fingerprint in Keys(records) then Keys(records) else Keys(records) + [last.fingerprint]
  {
    assert (records + [last])[..|records|] == records;
  }

  predicate AllGrouped(records: seq<Record>, keys: seq<string>) {
    forall key <- keys :: GroupOf(records, key) != []
  }

  /** The entries of all fingerprints, before sorting and cutting. */
  function Entries(records: seq<Record>, keys: seq<string>, limit: nat): (es: seq<Entry>)
    requires limit > 0 && AllGrouped(records, keys)
    ensures |es| == |keys|
  {
    if keys == [] then []
    else
      var init, last := keys[..|keys| - 1], keys[|keys| - 1];
      assert AllGrouped(records, init) by { assert forall key <- init :: key in keys; }
      Entries(records, init, limit) + [EntryOf(last, GroupOf(records, last), limit)]
  }

  lemma {:induction false} KeysAreGrouped(records: seq<Record>)
    ensures AllGrouped(records, Keys(records))
  {
    forall key <- Keys(records) ensures GroupOf(records, key) != [] { KeysAreTheFingerprints(records, key); }
  }

  lemma {:induction false} GroupedUpTo(records: seq<Record>, keys: seq<string>, i: nat)
    requires AllGrouped(records, keys) && i <= |keys|
    ensures AllGrouped(records, keys[..i])
  {
    assert forall key <- keys[..i] :: key in keys;
  }

  lemma {:induction false} EntriesNext(records: seq<Record>, keys: seq<string>, i: nat, limit: nat)
    requires limit > 0 && i < |keys| && AllGrouped(records, keys)
    ensures AllGrouped(records, keys[..i]) && AllGrouped(records, keys[..i + 1]) && GroupOf(records, keys[i]) != []
    ensures Entries(records, keys[..i + 1], limit)
            == Entries(records, keys[..i], limit) + [EntryOf(keys[i], GroupOf(records, keys[i]), limit)]
  {
    hide EntryOf, GroupOf;
    GroupedUpTo(records, keys, i);
    GroupedUpTo(records, keys, i + 1);
    assert keys[i] in keys;
    assert keys[..i + 1][..i] == keys[..i];
  }

  /** The entries of a log, one for each fingerprint, in the order of first appearance. */
  function AllEntries(records: seq<Record>, limit: nat): (es: seq<Entry>)
    requires limit > 0
    ensures |es| == |Keys(records)|
  {
    KeysAreGrouped(records);
    Entries(records, Keys(records), limit)
  }

  /** The whole index: its entries, ordered and cut. */
  function Index(records: seq<Record>, fingerprintLimit: nat, recordLimit: nat): seq<Entry>
    requires recordLimit > 0
  {
    Take(Sort(AllEntries(records, recordLimit), EntryBefore), fingerprintLimit)
  }

  method FailureIndexSnapshot(records: seq<Record>) returns (index: seq<Entry>)
    ensures index == Index(records, MAX_FINGERPRINTS, MAX_RECORDS)
  {
    hide EntryOf, Sort, AllGrouped, Keys, GroupOf;
    KeysAreGrouped(records);
    var order, groups := GroupByFingerprint(records);
    var entries: seq<Entry> := [];
    GroupedUpTo(records, order, 0);
    for i := 0 to |order|
      invariant AllGrouped(records, order[..i])
      invariant entries == Entries(records, order[..i], MAX_RECORDS)
    {
      EntriesNext(records, order, i, MAX_RECORDS);
      entries := entries + [EntryOf(order[i], groups[order[i]], MAX_RECORDS)];
    }
    assert order[..|order|] == order;
    return Take(Sort(entries, EntryBefore), MAX_FINGERPRINTS);
  }

  // ----- what the index says about the log

  lemma {:induction false} EntriesSummarise(records: seq<Record>, keys: seq<string>, limit: nat)
    requires Numbered(records) && limit > 0 && AllGrouped(records, keys)
    ensures forall i :: 0 <= i < |keys| ==>
              && Entries(records, keys, limit)[i].fingerprint == keys[i]
              && Summarises(records, Entries(records, keys, limit)[i], limit)
    decreases |keys|
  {
    hide EntryOf, Summarises, Numbered, GroupOf;
    if keys != [] {
      var init := keys[..|keys| - 1];
      GroupedUpTo(records, keys, |keys| - 1);
      EntriesSummarise(records, init, limit);
      assert keys[|keys| - 1] in keys;
      EntryMeaning(records, keys[|keys| - 1], limit);
    }
  }

  /** Every entry of the index of a log summarises the records of its fingerprint. */
  lemma {:induction false} IndexSummarises(records: seq<Record>)
    requires Numbered(records)
    ensures forall e <- Index(records, MAX_FINGERPRINTS, MAX_RECORDS) :: Summarises(records, e, MAX_RECORDS)
  {
    hide EntryOf, Summarises, Numbered, GroupOf, Entries, Sort, Keys;
    KeysAreGrouped(records);
    EntriesSummarise(records, Keys(records), MAX_RECORDS);
    var all := AllEntries(records, MAX_RECORDS);
    var sorted := Sort(all, EntryBefore);
    SortPermutes(all, EntryBefore);
    forall e <- Index(records, MAX_FINGERPRINTS, MAX_RECORDS) ensures Summarises(records, e, MAX_RECORDS) {
      assert e in sorted && e in multiset(sorted);
      assert e in all;
    }
  }

  function Occurrences(es: seq<Entry>): nat {
    if es == [] then 0 else Occurrences(es[..|es| - 1]) + es[|es| - 1].occurrences
  }

  lemma {:induction false} OccurrencesSnoc(records: seq<Record>, last: Record, keys: seq<string>, limit: nat)
    requires forall i, j :: 0 <= i < j < |keys| ==> keys[i] != keys[j]
    requires limit > 0 && AllGrouped(records, keys) && AllGrouped(records + [last], keys)
    ensures Occurrences(Entries(records + [last], keys, limit))
         == Occurrences(Entries(records, keys, limit)) + (if last.fingerprint in keys then 1 else 0)
    decreases |keys|
  {
    hide GroupOf, Sort;
    if keys != [] {
      var init, key := keys[..|keys| - 1], keys[|keys| - 1];
      assert keys == init + [key];
      GroupedUpTo(records, keys, |init|);
      GroupedUpTo(records + [last], keys, |init|);
      OccurrencesSnoc(records, last, init, limit);
      GroupSnoc(records, last, key);
      EntriesInit(records, keys, limit);
      EntriesInit(records + [last], keys, limit);
    }
  }

  lemma {:induction false} EntriesInit(records: seq<Record>, keys: seq<string>, limit: nat)
    requires keys != [] && limit > 0 && AllGrouped(records, keys)
    ensures var init := keys[..|keys| - 1];
            && AllGrouped(records, init)
            && Occurrences(Entries(records, keys, limit))
               == Occurrences(Entries(records, init, limit)) + |GroupOf(records, keys[|keys| - 1])|
  {
    hide GroupOf, Sort;
    var init := keys[..|keys| - 1];
    GroupedUpTo(records, keys, |init|);
    var es := Entries(records, keys, limit);
    assert es[..|es| - 1] == Entries(records, init, limit);
  }

  lemma {:induction false} GroupedBefore(records: seq<Record>, last: Record, keys: seq<string>)
    requires AllGrouped(records, keys)
    ensures AllGrouped(records + [last], keys)
  {
    hide GroupOf;
    forall key <- keys ensures GroupOf(records + [last], key) != [] { GroupSnoc(records, last, key); }
  }

  /** The occurrence counts of the entries of all fingerprints add up to the number of logged
      records. */
  lemma {:induction false} OccurrencesAddUp(records: seq<Record>, limit: nat)
    requires limit > 0
    ensures Occurrences(AllEntries(records, limit)) == |records|
    decreases |records|
  {
    hide GroupOf, Sort, AllGrouped, Entries, Occurrences;
    if records == [] {
      NoEntries(limit);
    } else {
      var init, last := records[..|records| - 1], records[|records| - 1];
      assert records == init + [last];
      OccurrencesAddUp(init, limit);
      var keys := Keys(init);
      KeysAreGrouped(init);
      KeysAreDistinct(init);
      KeysSnoc(init, last);
      GroupedBefore(init, last, keys);
      OccurrencesSnoc(init, last, keys, limit);
      if last.fingerprint !in keys {
        KeysAreGrouped(records);
        EntriesInit(records, Keys(records), limit);
        assert Keys(records)[..|keys|] == keys;
        NewGroup(init, last);
      }
    }
  }

  lemma NoEntries(limit: nat)
    requires limit > 0
    ensures Occurrences(AllEntries([], limit)) == 0
  {
  }

  lemma {:induction false} NewGroup(records: seq<Record>, last: Record)
    requires last.fingerprint !in Keys(records)
    ensures GroupOf(records + [last], last.fingerprint) == [last]
  {
    hide GroupOf;
    KeysAreTheFingerprints(records, last.fingerprint);
    GroupSnoc(records, last, last.fingerprint);
  }

  lemma {:induction false} OccurrencesConcat(a: seq<Entry>, b: seq<Entry>)
    ensures Occurrences(a + b) == Occurrences(a) + Occurrences(b)
    decreases |b|
  {
    if b == [] {
      assert a + b == a;
    } else {
      var init := b[..|b| - 1];
      OccurrencesConcat(a, init);
      assert (a + b)[..|a + b| - 1] == a + init;
    }
  }

  lemma {:induction false} InsertAddsUp(x: Entry, es: seq<Entry>)
    ensures Occurrences(Insert(x, es, EntryBefore)) == x.occurrences + Occurrences(es)
    decreases |es|
  {
    hide EntryBefore, Occurrences;
    OccurrencesConcat([x], es);
    OneOccurrence(x);
    if es != [] && !EntryBefore(x, es[0]) {
      InsertAddsUp(x, es[1..]);
      OccurrencesConcat([es[0]], Insert(x, es[1..], EntryBefore));
      OccurrencesConcat([es[0]], es[1..]);
      assert es == [es[0]] + es[1..];
    }
  }

  lemma OneOccurrence(x: Entry)
    ensures Occurrences([x]) == x.occurrences
  {
  }

  lemma {:induction false} SortAddsUp(es: seq<Entry>)
    ensures Occurrences(Sort(es, EntryBefore)) == Occurrences(es)
    decreases |es|
  {
    hide EntryBefore, Occurrences, Insert;
    if es != [] {
      SortAddsUp(es[1..]);
      InsertAddsUp(es[0], Sort(es[1..], EntryBefore));
      OccurrencesConcat([es[0]], es[1..]);
      OneOccurrence(es[0]);
      assert es == [es[0]] + es[1..];
    }
  }

  /** Entry a ranks before entry b: it was repeated more often, or as often and with more
      occurrences, or with as many and the earlier fingerprint. */
  predicate Outranks(a: Entry, b: Entry) {
    || a.maxRepetition > b.maxRepetition
    || (a.maxRepetition == b.maxRepetition && a.occurrences > b.occurrences)
    || (&& a.maxRepetition == b.maxRepetition && a.occurrences == b.occurrences
        && a.fingerprint != b.fingerprint && TextLeq(a.fingerprint, b.fingerprint))
  }

  predicate Ranked(es: seq<Entry>) {
    forall i, j :: 0 <= i < j < |es| ==> Outranks(es[i], es[j])
  }

  lemma {:induction false} EntriesAreDistinct(records: seq<Record>, i: nat, j: nat)
    requires i < j < |AllEntries(records, MAX_RECORDS)|
    ensures AllEntries(records, MAX_RECORDS)[i].fingerprint != AllEntries(records, MAX_RECORDS)[j].fingerprint
  {
    hide EntryOf, GroupOf, Entries;
    KeysAreGrouped(records);
    KeysAreDistinct(records);
    EntriesAreNamed(records, Keys(records), MAX_RECORDS);
  }

  lemma {:induction false} EntriesAreNamed(records: seq<Record>, keys: seq<string>, limit: nat)
    requires limit > 0 && AllGrouped(records, keys)
    ensures forall i :: 0 <= i < |keys| ==> Entries(records, keys, limit)[i].fingerprint == keys[i]
    decreases |keys|
  {
    hide Sort, MaxRepetition;
    if keys != [] {
      GroupedUpTo(records, keys, |keys| - 1);
      EntriesAreNamed(records, keys[..|keys| - 1], limit);
    }
  }

  /** Sorting by the key ranks the entries, because no two have the same fingerprint. */
  lemma {:induction false} SortedIsRanked(records: seq<Record>, es: seq<Entry>)
    requires Sorted(es, EntryBefore) && multiset(es) == multiset(AllEntries(records, MAX_RECORDS))
    ensures Ranked(es)
  {
    hide EntryOf, Keys, Entries, GroupOf, AllGrouped, TextLeq;
    var all := AllEntries(records, MAX_RECORDS);
    hide AllEntries;
    forall i, j | 0 <= i < j < |es| ensures Outranks(es[i], es[j]) {
      assert EntryBefore(es[i], es[j]);
      Sorting.Twice(es, es[i]);
      Sorting.Twice(es, es[j]);
      Sorting.Twice(all, es[i]);
      Sorting.Twice(all, es[j]);
      assert es[i] in all && es[j] in all;
      if es[i].fingerprint == es[j].fingerprint {
        var a :| 0 <= a < |all| && all[a] == es[i];
        var b :| 0 <= b < |all| && all[b] == es[j];
        if a < b { EntriesAreDistinct(records, a, b); } else if b < a { EntriesAreDistinct(records, b, a); }
        assert es[i] == es[j];
        var c, d :| 0 <= c < d < |all| && all[c] == es[i] && all[d] == es[i];
        EntriesAreDistinct(records, c, d);
        assert false;
      }
    }
  }

  /** The index and what was cut off it: together all entries in the order of their rank, with
      all records counted; something is cut only when the index is full. */
  ghost predicate CutsOff(records: seq<Record>, index: seq<Entry>, rest: seq<Entry>) {
    && Ranked(index + rest)
    && multiset(index + rest) == multiset(AllEntries(records, MAX_RECORDS))
    && Occurrences(index) + Occurrences(rest) == |records|
    && |index| <= MAX_FINGERPRINTS && (rest != [] ==> |index| == MAX_FINGERPRINTS)
  }

  /** The index keeps the entries that rank first, in the order of their rank: every entry that
      is left out was repeated less often than each one kept, or as often with fewer
      occurrences, or with as many and a later fingerprint. */
  lemma {:induction false} IndexKeepsTheFirst(records: seq<Record>)
    ensures exists rest :: CutsOff(records, Index(records, MAX_FINGERPRINTS, MAX_RECORDS), rest)
  {
    hide EntryOf, KeyLeq, Keys, Entries, GroupOf, Sort, Sorted, AllGrouped, Occurrences;
    KeyIsTotal();
    assert TotalOrder(EntryBefore);
    var all := AllEntries(records, MAX_RECORDS);
    var sorted, index := Sort(all, EntryBefore), Index(records, MAX_FINGERPRINTS, MAX_RECORDS);
    SortSorts(all, EntryBefore);
    SortPermutes(all, EntryBefore);
    var rest := sorted[|index|..];
    assert index + rest == sorted;
    SortedIsRanked(records, sorted);
    hide Ranked;
    OccurrencesConcat(index, rest);
    SortAddsUp(all);
    OccurrencesAddUp(records, MAX_RECORDS);
    assert CutsOff(records, index, rest);
  }
}
