/**
 * The correction engine: bulk soft removal of active records by substring,
 * exact code, id or a named OR-of-criteria predicate, with one audit entry
 * per operation that matched something.
 */
module Corrections {
  import opened Base
  import opened Text
  import opened ConditionModel
  import opened Storage
  import opened Monitoring

  // ---------------------------------------------------------------------------
  // Named removal predicates.
  // ---------------------------------------------------------------------------

  /** A named OR of criteria: text patterns, ICD-10 codes, SNOMED codes, quality flags. */
  datatype RemovalPredicate = RemovalPredicate(
    name: string,
    description: string,
    textPatterns: seq<string>,
    icd10Codes: set<string>,
    snomedCodes: set<string>,
    qualityFlags: seq<string>)

  const TUBERCULOSIS: RemovalPredicate := RemovalPredicate(
    "tuberculosis",
    "All TB-related conditions (latent TB, history of TB)",
    ["tuberculosis", "latent tb", "hx of latent tb"],
    {"Z22.7", "Z86.15"},
    {"11999007", "428934008"},
    [])

  const ADMIN_CODES: RemovalPredicate := RemovalPredicate(
    "admin_codes",
    "Non-clinical administrative entries",
    [], {}, {},
    [ADMIN_CODE])

  const PREDICATES: map<string, RemovalPredicate> := map[
    "tuberculosis" := TUBERCULOSIS,
    "admin_codes" := ADMIN_CODES
  ]

  /** The predicate names in sorted order, as listed when a name is unknown. */
  const PREDICATE_NAMES: seq<string> := ["admin_codes", "tuberculosis"]

  /** Every table entry is filed under its own name. */
  lemma PredicatesNamedByKey()
    ensures forall k :: k in PREDICATES ==> PREDICATES[k].name == k
  {
  }

  /** `sorted(PREDICATES.keys())`: exactly the table's names, each once, in increasing order. */
  lemma PredicateNamesSorted()
    ensures (set k | k in PREDICATE_NAMES) == PREDICATES.Keys
    ensures |PREDICATE_NAMES| == |PREDICATES|
    ensures forall i, j :: 0 <= i < j < |PREDICATE_NAMES| ==> LexLess(PREDICATE_NAMES[i], PREDICATE_NAMES[j])
  {
    assert PREDICATE_NAMES[0][0] == 'a' && PREDICATE_NAMES[1][0] == 't';
    assert (set k | k in PREDICATE_NAMES) == PREDICATES.Keys;
  }

  /** A `for x in xs: if p(x): return True` loop: some element satisfies `p`. */
  function AnyOf<T>(xs: seq<T>, p: T -> bool): (b: bool)
    ensures b <==> exists k :: 0 <= k < |xs| && p(xs[k])
  {
    if xs == [] then false
    else if p(xs[0]) then true
    else
      assert forall k :: 1 <= k < |xs| ==> xs[k] == xs[1..][k - 1];
      AnyOf(xs[1..], p)
  }

  /** `wanted and set(codes) & wanted`: some code in the sequence is wanted. */
  function Intersects(codes: seq<string>, wanted: set<string>): (b: bool)
    ensures b <==> exists c :: c in codes && c in wanted
  {
    if wanted == {} then false
    else
      var common := (set c | c in codes) * wanted;
      assert forall c :: c in codes && c in wanted ==> c in common;
      common != {}
  }

  /**
   * `_matches_predicate`: a record matches iff some text pattern occurs in
   * its search text, or its ICD-10 or SNOMED codes meet the predicate's, or
   * it carries one of the predicate's flags.
   */
  function MatchesPredicate(record: ConditionRecord, pred: RemovalPredicate): (b: bool)
    ensures b <==>
      || (exists k :: 0 <= k < |pred.textPatterns| && Contains(record.searchableText, pred.textPatterns[k]))
      || (exists c :: c in record.icd10Codes && c in pred.icd10Codes)
      || (exists c :: c in record.snomedCodes && c in pred.snomedCodes)
      || (exists k :: 0 <= k < |pred.qualityFlags| && pred.qualityFlags[k] in record.qualityFlags)
  {
    || AnyOf(pred.textPatterns, (p: string) => Contains(record.searchableText, p))
    || Intersects(record.icd10Codes, pred.icd10Codes)
    || Intersects(record.snomedCodes, pred.snomedCodes)
    || AnyOf(pred.qualityFlags, (f: string) => f in record.qualityFlags)
  }

  /**
   * The tuberculosis predicate matches iff the search text mentions
   * "tuberculosis" or "latent tb", or the record carries one of its ICD-10 or
   * SNOMED codes. Its third pattern, "hx of latent tb", never matches on its
   * own, since it contains the second.
   */
  lemma TuberculosisMatches(record: ConditionRecord)
    ensures MatchesPredicate(record, TUBERCULOSIS) <==>
      || Contains(record.searchableText, "tuberculosis")
      || Contains(record.searchableText, "latent tb")
      || "Z22.7" in record.icd10Codes || "Z86.15" in record.icd10Codes
      || "11999007" in record.snomedCodes || "428934008" in record.snomedCodes
  {
    var patterns := TUBERCULOSIS.textPatterns;
    assert patterns[1] == "latent tb" && patterns[0] == "tuberculosis";
    if Contains(record.searchableText, patterns[2]) {
      assert OccursAt(patterns[2], patterns[1], 6);
      ContainsTransitive(record.searchableText, patterns[2], patterns[1]);
    }
  }

  /** The admin-codes predicate matches exactly the records flagged `admin_code`. */
  lemma AdminCodesMatches(record: ConditionRecord)
    ensures MatchesPredicate(record, ADMIN_CODES) <==> ADMIN_CODE in record.qualityFlags
  {
    assert ADMIN_CODES.qualityFlags[0] == ADMIN_CODE;
  }

  // ---------------------------------------------------------------------------
  // The reference sweep of `_apply_removals`.
  // ---------------------------------------------------------------------------

  /** The records after a sweep, and the labels of the records it removed. */
  datatype Sweep = Sweep(records: map<string, ConditionRecord>, removed: seq<string>)

  /**
   * `_apply_removals`' loop on plain values: each matched record whose id is
   * stored and still active is marked removed and its label recorded; the
   * others are skipped. No key is added or dropped, no removed record changes.
   */
  function SweepOf(m: map<string, ConditionRecord>, matched: seq<ConditionRecord>, reason: string, now: string): (s: Sweep)
    ensures s.records.Keys == m.Keys
    ensures forall id :: id in s.records ==> s.records[id].resourceId == m[id].resourceId
    ensures |s.removed| <= |matched|
    ensures RemovalMonotone(m, s.records)
  {
    if matched == [] then Sweep(m, [])
    else SweepNext(SweepOf(m, matched[..|matched| - 1], reason, now), matched[|matched| - 1], reason, now)
  }

  /** One step of the sweep: `soft_remove` on the record's id, and its label if that succeeded. */
  function SweepNext(s: Sweep, r: ConditionRecord, reason: string, now: string): (s': Sweep)
    ensures s'.records.Keys == s.records.Keys
    ensures forall id :: id in s'.records ==> s'.records[id].resourceId == s.records[id].resourceId
    ensures RemovalMonotone(s.records, s'.records)
  {
    if r.resourceId in s.records && !s.records[r.resourceId].isRemoved then
      Sweep(s.records[r.resourceId := MarkRemoved(s.records[r.resourceId], reason, now)], s.removed + [RemovalLabel(r)])
    else s
  }

  lemma SweepOfStep(m: map<string, ConditionRecord>, matched: seq<ConditionRecord>, i: nat, reason: string, now: string)
    requires i < |matched|
    ensures SweepOf(m, matched[..i + 1], reason, now) == SweepNext(SweepOf(m, matched[..i], reason, now), matched[i], reason, now)
  {
    assert matched[..i + 1][..i] == matched[..i];
  }

  /**
   * Every label a sweep reports stands for one record moved from active to
   * removed: the active listing shrinks, and the removed listing grows, by
   * the number of labels.
   */
  lemma {:induction false} SweepMovesCounted(order: seq<string>, m: map<string, ConditionRecord>, matched: seq<ConditionRecord>,
                                             reason: string, now: string)
    requires Indexed(order, m)
    ensures Indexed(order, SweepOf(m, matched, reason, now).records)
    ensures |Filter(ValuesInOrder(order, SweepOf(m, matched, reason, now).records), IsActive)| + |SweepOf(m, matched, reason, now).removed|
         == |Filter(ValuesInOrder(order, m), IsActive)|
    ensures |Filter(ValuesInOrder(order, SweepOf(m, matched, reason, now).records), IsRemoved)|
         == |Filter(ValuesInOrder(order, m), IsRemoved)| + |SweepOf(m, matched, reason, now).removed|
  {
    if matched != [] {
      var init := matched[..|matched| - 1];
      SweepMovesCounted(order, m, init, reason, now);
      var s := SweepOf(m, init, reason, now);
      var r := matched[|matched| - 1];
      if r.resourceId in s.records && !s.records[r.resourceId].isRemoved {
        RemovalKeepsIndexed(order, s.records, r.resourceId, MarkRemoved(s.records[r.resourceId], reason, now));
      }
    }
  }

  /** The removal labels of a sequence of records, in order. */
  function Labels(rs: seq<ConditionRecord>): (labels: seq<string>)
    ensures |labels| == |rs|
    ensures forall i :: 0 <= i < |rs| ==> labels[i] == RemovalLabel(rs[i])
  {
    if rs == [] then [] else Labels(rs[..|rs| - 1]) + [RemovalLabel(rs[|rs| - 1])]
  }

  /** The matched records are stored, active, and listed once each. */
  ghost predicate StoredActiveDistinct(m: map<string, ConditionRecord>, matched: seq<ConditionRecord>)
  {
    && NoDup(Ids(matched))
    && forall i :: 0 <= i < |matched| ==>
         matched[i].resourceId in m && m[matched[i].resourceId] == matched[i] && !matched[i].isRemoved
  }

  /**
   * Sweeping distinct, stored, active records removes every one of them, and
   * nothing else: each is marked removed, every label is reported, in order.
   */
  lemma {:induction false} SweepRemovesAll(m: map<string, ConditionRecord>, matched: seq<ConditionRecord>, reason: string, now: string)
    requires StoredActiveDistinct(m, matched)
    ensures forall id :: id in m ==>
      (SweepOf(m, matched, reason, now).records[id] == if id in Ids(matched) then MarkRemoved(m[id], reason, now) else m[id])
    ensures SweepOf(m, matched, reason, now).removed == Labels(matched)
  {
    if matched != [] {
      var init := matched[..|matched| - 1];
      var r := matched[|matched| - 1];
      DistinctPrefix(m, matched);
      SweepRemovesAll(m, init, reason, now);
      var s := SweepOf(m, init, reason, now);
      assert s.records[r.resourceId] == r;
      var marked := s.records[r.resourceId := MarkRemoved(r, reason, now)];
      assert SweepOf(m, matched, reason, now) == Sweep(marked, s.removed + [RemovalLabel(r)]);
      forall id | id in m
        ensures marked[id] == if id in Ids(matched) then MarkRemoved(m[id], reason, now) else m[id]
      {
        assert id in Ids(matched) <==> id in Ids(init) || id == r.resourceId;
      }
    }
  }

  /** Dropping the last matched record keeps the others stored, active and distinct, and the last one unlisted. */
  lemma DistinctPrefix(m: map<string, ConditionRecord>, matched: seq<ConditionRecord>)
    requires StoredActiveDistinct(m, matched) && matched != []
    ensures StoredActiveDistinct(m, matched[..|matched| - 1])
    ensures Ids(matched) == Ids(matched[..|matched| - 1]) + [matched[|matched| - 1].resourceId]
    ensures matched[|matched| - 1].resourceId !in Ids(matched[..|matched| - 1])
  {
    var init := matched[..|matched| - 1];
    var r := matched[|matched| - 1];
    assert Ids(init) == Ids(matched)[..|matched| - 1];
    forall k | 0 <= k < |init| ensures Ids(init)[k] != r.resourceId {
      assert Ids(matched)[k] != Ids(matched)[|matched| - 1];
    }
  }

  /**
   * Sweeping the active records that satisfy `p`, as listed by the store,
   * marks exactly those removed and reports one label per match.
   */
  lemma SweepOfActiveMatches(order: seq<string>, records: map<string, ConditionRecord>, p: ConditionRecord -> bool,
                             reason: string, now: string)
    requires Indexed(order, records)
    ensures var matched := Filter(Filter(ValuesInOrder(order, records), IsActive), p);
      && (forall id :: id in records ==>
            (SweepOf(records, matched, reason, now).records[id]
             == if !records[id].isRemoved && p(records[id]) then MarkRemoved(records[id], reason, now) else records[id]))
      && SweepOf(records, matched, reason, now).removed == Labels(matched)
      && (matched == [] <==> forall id :: id in records ==> records[id].isRemoved || !p(records[id]))
  {
    var matched := Filter(Filter(ValuesInOrder(order, records), IsActive), p);
    ActiveMatchesDistinct(order, records, p);
    SweepRemovesAll(records, matched, reason, now);
    ActiveMatchesListed(order, records, p);
    if matched != [] {
      assert matched[0].resourceId in records;
    }
  }

  /** The active records satisfying `p`, as the store lists them, are stored, active and distinct. */
  lemma ActiveMatchesDistinct(order: seq<string>, records: map<string, ConditionRecord>, p: ConditionRecord -> bool)
    requires Indexed(order, records)
    ensures StoredActiveDistinct(records, Filter(Filter(ValuesInOrder(order, records), IsActive), p))
  {
    var all := ValuesInOrder(order, records);
    assert Ids(all) == order;
    FilterKeepsIdsDistinct(all, IsActive);
    FilterKeepsIdsDistinct(Filter(all, IsActive), p);
  }

  /** An id is among those listed iff its record is active and satisfies `p`. */
  lemma ActiveMatchesListed(order: seq<string>, records: map<string, ConditionRecord>, p: ConditionRecord -> bool)
    requires Indexed(order, records)
    ensures var matched := Filter(Filter(ValuesInOrder(order, records), IsActive), p);
      forall id :: id in records ==> (id in Ids(matched) <==> !records[id].isRemoved && p(records[id]))
  {
    forall id | id in records
      ensures id in Ids(Filter(Filter(ValuesInOrder(order, records), IsActive), p)) <==> !records[id].isRemoved && p(records[id])
    {
      if !records[id].isRemoved && p(records[id]) {
        ActiveMatchIsListed(order, records, p, id);
      }
      if id in Ids(Filter(Filter(ValuesInOrder(order, records), IsActive), p)) {
        ListedIsActiveMatch(order, records, p, id);
      }
    }
  }

  lemma ActiveMatchIsListed(order: seq<string>, records: map<string, ConditionRecord>, p: ConditionRecord -> bool, id: string)
    requires Indexed(order, records) && id in records && !records[id].isRemoved && p(records[id])
    ensures id in Ids(Filter(Filter(ValuesInOrder(order, records), IsActive), p))
  {
    var all := ValuesInOrder(order, records);
    var active := Filter(all, IsActive);
    var matched := Filter(active, p);
    var k := IndexOf(order, id);
    assert all[k] == records[id];
    var j :| 0 <= j < |active| && active[j] == records[id];
    var i :| 0 <= i < |matched| && matched[i] == records[id];
    assert Ids(matched)[i] == id;
  }

  lemma ListedIsActiveMatch(order: seq<string>, records: map<string, ConditionRecord>, p: ConditionRecord -> bool, id: string)
    requires Indexed(order, records)
    requires id in Ids(Filter(Filter(ValuesInOrder(order, records), IsActive), p))
    ensures id in records && !records[id].isRemoved && p(records[id])
  {
    var matched := Filter(Filter(ValuesInOrder(order, records), IsActive), p);
    var i :| 0 <= i < |matched| && Ids(matched)[i] == id;
    InFilterTwice(ValuesInOrder(order, records), IsActive, p, matched[i]);
    StoredValue(order, records, matched[i]);
  }

  /** An element that passes two filters is an element of the sequence satisfying both tests. */
  lemma InFilterTwice<T>(s: seq<T>, q: T -> bool, p: T -> bool, x: T)
    requires x in Filter(Filter(s, q), p)
    ensures x in s && q(x) && p(x)
  {
    var i :| 0 <= i < |Filter(Filter(s, q), p)| && Filter(Filter(s, q), p)[i] == x;
    var j :| 0 <= j < |Filter(s, q)| && Filter(s, q)[j] == x;
  }

  /** A record listed by the store is the one stored under its id. */
  lemma StoredValue(order: seq<string>, records: map<string, ConditionRecord>, r: ConditionRecord)
    requires Indexed(order, records) && r in ValuesInOrder(order, records)
    ensures r.resourceId in records && records[r.resourceId] == r
  {
    var k :| 0 <= k < |order| && ValuesInOrder(order, records)[k] == r;
    assert order[k] in records;
  }

  // ---------------------------------------------------------------------------
  // Results.
  // ---------------------------------------------------------------------------

  /** The message of a result; its wording is rendered from these parts. */
  datatype Message =
    | NoActiveMatch(target: string)
    | AlreadyRemoved(target: string)
    | UnknownPredicate(name: string, available: string)
    | RemovedSummary(count: nat, activeRemaining: nat)

  /** The dictionary a removal operation returns. */
  datatype CorrectionResult = CorrectionResult(
    success: bool,
    message: Message,
    recordsRemoved: nat,
    removedConditions: seq<string>,
    activeRemaining: nat)

  /** The result of `list_corrections`. */
  datatype CorrectionListing = CorrectionListing(
    corrections: seq<CorrectionEntry>,
    totalCorrections: nat,
    totalRecordsRemoved: nat)

  /** `remove_by_text`'s match: the lower-cased target occurs in the search text. */
  predicate TextMatches(r: ConditionRecord, targetLower: string)
  {
    Contains(r.searchableText, targetLower)
  }

  /** `remove_by_code`'s match: the code is among all codes, compared exactly. */
  predicate CodeMatches(r: ConditionRecord, code: string)
  {
    code in r.allCodes
  }

  /** The test `remove_by_text` applies to each active record. */
  function TextTest(targetLower: string): ConditionRecord -> bool
  {
    (r: ConditionRecord) => TextMatches(r, targetLower)
  }

  /** The test `remove_by_code` applies to each active record. */
  function CodeTest(code: string): ConditionRecord -> bool
  {
    (r: ConditionRecord) => CodeMatches(r, code)
  }

  /** The test `remove_by_predicate` applies to each active record. */
  function PredicateTest(pred: RemovalPredicate): ConditionRecord -> bool
  {
    (r: ConditionRecord) => MatchesPredicate(r, pred)
  }

  class CorrectionEngine {
    const store: ConditionStore
    const dashboard: MonitoringDashboard

    ghost predicate Valid()
      reads this, store, dashboard
    {
      store.Valid() && dashboard.Valid()
    }

    constructor (store: ConditionStore, dashboard: MonitoringDashboard)
      requires store.Valid() && dashboard.Valid()
      ensures this.store == store && this.dashboard == dashboard
      ensures Valid()
    {
      this.store := store;
      this.dashboard := dashboard;
    }

    /** `_no_match`: a failure that removes nothing and reports the active count. */
    function NoMatch(target: string): (res: CorrectionResult)
      reads this, store
      requires store.Valid()
      ensures !res.success && res.recordsRemoved == 0 && res.removedConditions == []
      ensures res.message == NoActiveMatch(target) && res.activeRemaining == store.ActiveCount()
    {
      CorrectionResult(false, NoActiveMatch(target), 0, [], store.ActiveCount())
    }

    /** `_already_removed`: a failure that removes nothing and reports the active count. */
    function AlreadyRemovedResult(target: string): (res: CorrectionResult)
      reads this, store
      requires store.Valid()
      ensures !res.success && res.recordsRemoved == 0 && res.removedConditions == []
      ensures res.message == AlreadyRemoved(target) && res.activeRemaining == store.ActiveCount()
    {
      CorrectionResult(false, AlreadyRemoved(target), 0, [], store.ActiveCount())
    }

    /**
     * `_apply_removals`: nothing matched is a failure that changes nothing;
     * otherwise the matched records are soft-removed one by one, as the
     * reference sweep says, and exactly one audit entry records the count.
     * The active count after the call is reported, and it has fallen by the
     * number removed.
     */
    method ApplyRemovals(matched: seq<ConditionRecord>, action: string, target: string, reason: string, now: string)
      returns (res: CorrectionResult)
      requires Valid()
      modifies store, dashboard
      ensures Valid()
      ensures store.order == old(store.order)
      ensures res.activeRemaining == store.ActiveCount()
      ensures dashboard.ingestionBatches == old(dashboard.ingestionBatches)
      ensures dashboard.qualityFlagsTotal == old(dashboard.qualityFlagsTotal)
      ensures matched == [] ==> res == old(NoMatch(target)) && unchanged(store, dashboard)
      ensures matched != [] ==>
        var s := SweepOf(old(store.records), matched, reason, now);
        && store.records == s.records
        && res == CorrectionResult(true, RemovedSummary(|s.removed|, store.ActiveCount()), |s.removed|, s.removed, store.ActiveCount())
        && dashboard.corrections == old(dashboard.corrections) + [CorrectionEntry(now, action, target, reason, |s.removed|)]
        && store.ActiveCount() + |s.removed| == old(store.ActiveCount())
        && store.RemovedCount() == old(store.RemovedCount()) + |s.removed|
    {
      if matched == [] {
        return NoMatch(target);
      }
      SweepMovesCounted(store.order, store.records, matched, reason, now);
      var removed := SoftRemoveAll(matched, reason, now);
      dashboard.RecordCorrection(action, target, reason, |removed|, now);
      res := CorrectionResult(true, RemovedSummary(|removed|, store.ActiveCount()), |removed|, removed, store.ActiveCount());
    }

    /**
     * The loop of `_apply_removals`: soft-removes each matched record in
     * turn and collects the labels of those that were removed, as the
     * reference sweep says.
     */
    method SoftRemoveAll(matched: seq<ConditionRecord>, reason: string, now: string) returns (removed: seq<string>)
      requires store.Valid()
      modifies store
      ensures store.Valid() && store.order == old(store.order)
      ensures SweepOf(old(store.records), matched, reason, now) == Sweep(store.records, removed)
    {
      removed := [];
      var i := 0;
      while i < |matched|
        invariant 0 <= i <= |matched|
        invariant store.Valid() && store.order == old(store.order)
        invariant SweepOf(old(store.records), matched[..i], reason, now) == Sweep(store.records, removed)
      {
        var record := matched[i];
        SweepOfStep(old(store.records), matched, i, reason, now);
        var ok := store.SoftRemove(record.resourceId, reason, now);
        if ok {
          removed := removed + [RemovalLabel(record)];
        }
        i := i + 1;
      }
      assert matched[..i] == matched;
    }

    /**
     * The shared shape of `remove_by_text`, `remove_by_code` and
     * `remove_by_predicate`: exactly the active records satisfying `p` are
     * marked removed, every other record is unchanged, one label per removed
     * record is reported, and an audit entry is added iff something matched.
     */
    method RemoveWhere(p: ConditionRecord -> bool, action: string, target: string, reason: string, now: string)
      returns (res: CorrectionResult)
      requires Valid()
      modifies store, dashboard
      ensures Valid()
      ensures store.order == old(store.order) && store.records.Keys == old(store.records).Keys
      ensures forall id :: id in old(store.records) ==>
        (store.records[id] == if !old(store.records)[id].isRemoved && p(old(store.records)[id])
           then MarkRemoved(old(store.records)[id], reason, now) else old(store.records)[id])
      ensures res.success <==> exists id :: id in old(store.records) && !old(store.records)[id].isRemoved && p(old(store.records)[id])
      ensures res.activeRemaining == store.ActiveCount() == old(store.ActiveCount()) - res.recordsRemoved
      ensures res.recordsRemoved == |res.removedConditions|
      ensures res.success ==> res.removedConditions == Labels(Filter(old(store.GetAllActive()), p))
      ensures !res.success ==> res == old(NoMatch(target))
      ensures dashboard.corrections == old(dashboard.corrections)
        + (if res.success then [CorrectionEntry(now, action, target, reason, res.recordsRemoved)] else [])
      ensures dashboard.ingestionBatches == old(dashboard.ingestionBatches)
      ensures dashboard.qualityFlagsTotal == old(dashboard.qualityFlagsTotal)
    {
      var matched := Filter(store.GetAllActive(), p);
      SweepOfActiveMatches(store.order, store.records, p, reason, now);
      res := ApplyRemovals(matched, action, target, reason, now);
    }

    /** `remove_by_text`: removes exactly the active records whose search text contains the lower-cased target. */
    method RemoveByText(target: string, reason: string, now: string) returns (res: CorrectionResult)
      requires Valid()
      modifies store, dashboard
      ensures Valid()
      ensures store.order == old(store.order) && store.records.Keys == old(store.records).Keys
      ensures forall id :: id in old(store.records) ==>
        (store.records[id] == if !old(store.records)[id].isRemoved && Contains(old(store.records)[id].searchableText, Lower(target))
           then MarkRemoved(old(store.records)[id], reason, now) else old(store.records)[id])
      ensures res.success <==>
        exists id :: id in old(store.records) && !old(store.records)[id].isRemoved
          && Contains(old(store.records)[id].searchableText, Lower(target))
      ensures res.activeRemaining == store.ActiveCount() == old(store.ActiveCount()) - res.recordsRemoved
      ensures res.recordsRemoved == |res.removedConditions|
      ensures res.success ==> res.removedConditions == Labels(Filter(old(store.GetAllActive()), TextTest(Lower(target))))
      ensures !res.success ==> res == old(NoMatch(target))
      ensures dashboard.corrections == old(dashboard.corrections)
        + (if res.success then [CorrectionEntry(now, "remove_by_text", target, reason, res.recordsRemoved)] else [])
      ensures dashboard.ingestionBatches == old(dashboard.ingestionBatches)
      ensures dashboard.qualityFlagsTotal == old(dashboard.qualityFlagsTotal)
    {
      res := RemoveWhere(TextTest(Lower(target)), "remove_by_text", target, reason, now);
    }

    /** `remove_by_code`: removes exactly the active records listing the code among all their codes. */
    method RemoveByCode(code: string, reason: string, now: string) returns (res: CorrectionResult)
      requires Valid()
      modifies store, dashboard
      ensures Valid()
      ensures store.order == old(store.order) && store.records.Keys == old(store.records).Keys
      ensures forall id :: id in old(store.records) ==>
        (store.records[id] == if !old(store.records)[id].isRemoved && code in old(store.records)[id].allCodes
           then MarkRemoved(old(store.records)[id], reason, now) else old(store.records)[id])
      ensures res.success <==>
        exists id :: id in old(store.records) && !old(store.records)[id].isRemoved
          && code in old(store.records)[id].allCodes
      ensures res.activeRemaining == store.ActiveCount() == old(store.ActiveCount()) - res.recordsRemoved
      ensures res.recordsRemoved == |res.removedConditions|
      ensures res.success ==> res.removedConditions == Labels(Filter(old(store.GetAllActive()), CodeTest(code)))
      ensures !res.success ==> res == old(NoMatch(code))
      ensures dashboard.corrections == old(dashboard.corrections)
        + (if res.success then [CorrectionEntry(now, "remove_by_code", code, reason, res.recordsRemoved)] else [])
      ensures dashboard.ingestionBatches == old(dashboard.ingestionBatches)
      ensures dashboard.qualityFlagsTotal == old(dashboard.qualityFlagsTotal)
    {
      res := RemoveWhere(CodeTest(code), "remove_by_code", code, reason, now);
    }

    /**
     * `remove_by_id`: an unknown id is the no-match failure and an already
     * removed one the already-removed failure, both changing nothing;
     * otherwise exactly that record is removed and audited.
     */
    method RemoveById(resourceId: string, reason: string, now: string) returns (res: CorrectionResult)
      requires Valid()
      modifies store, dashboard
      ensures Valid()
      ensures res.activeRemaining == store.ActiveCount()
      ensures resourceId !in old(store.records) ==> res == old(NoMatch(resourceId)) && unchanged(store, dashboard)
      ensures resourceId in old(store.records) && old(store.records)[resourceId].isRemoved ==>
        res == old(AlreadyRemovedResult(resourceId)) && unchanged(store, dashboard)
      ensures resourceId in old(store.records) && !old(store.records)[resourceId].isRemoved ==>
        && store.records == old(store.records)[resourceId := MarkRemoved(old(store.records)[resourceId], reason, now)]
        && res.success && res.recordsRemoved == 1
        && res.removedConditions == [RemovalLabel(old(store.records)[resourceId])]
        && store.order == old(store.order)
        && dashboard.corrections == old(dashboard.corrections) + [CorrectionEntry(now, "remove_by_id", resourceId, reason, 1)]
        && dashboard.ingestionBatches == old(dashboard.ingestionBatches)
        && dashboard.qualityFlagsTotal == old(dashboard.qualityFlagsTotal)
        && store.ActiveCount() + 1 == old(store.ActiveCount())
    {
      var record := store.GetById(resourceId);
      if record.None? {
        return NoMatch(resourceId);
      }
      if record.value.isRemoved {
        return AlreadyRemovedResult(resourceId);
      }
      assert [record.value][..0] == [];
      res := ApplyRemovals([record.value], "remove_by_id", resourceId, reason, now);
    }

    /**
     * `remove_by_predicate`: an unknown name fails, removes nothing, changes
     * nothing and lists the sorted predicate names; a known one removes
     * exactly the active records matching that predicate.
     */
    method RemoveByPredicate(predicateName: string, reason: string, now: string) returns (res: CorrectionResult)
      requires Valid()
      modifies store, dashboard
      ensures Valid()
      ensures res.activeRemaining == store.ActiveCount()
      ensures predicateName !in PREDICATES ==>
        && res == CorrectionResult(false, UnknownPredicate(predicateName, Join(", ", PREDICATE_NAMES)), 0, [], store.ActiveCount())
        && unchanged(store, dashboard)
      ensures predicateName in PREDICATES ==>
        var pred := PREDICATES[predicateName];
        && store.order == old(store.order) && store.records.Keys == old(store.records).Keys
        && (forall id :: id in old(store.records) ==>
             (store.records[id] == if !old(store.records)[id].isRemoved && MatchesPredicate(old(store.records)[id], pred)
                then MarkRemoved(old(store.records)[id], reason, now) else old(store.records)[id]))
        && (res.success <==>
              exists id :: id in old(store.records) && !old(store.records)[id].isRemoved
                && MatchesPredicate(old(store.records)[id], pred))
        && store.ActiveCount() == old(store.ActiveCount()) - res.recordsRemoved
        && res.recordsRemoved == |res.removedConditions|
        && (res.success ==> res.removedConditions == Labels(Filter(old(store.GetAllActive()), PredicateTest(pred))))
        && (!res.success ==> res == old(NoMatch(predicateName)))
        && dashboard.corrections == old(dashboard.corrections)
             + (if res.success then [CorrectionEntry(now, "remove_by_predicate", predicateName, reason, res.recordsRemoved)] else [])
        && dashboard.ingestionBatches == old(dashboard.ingestionBatches)
        && dashboard.qualityFlagsTotal == old(dashboard.qualityFlagsTotal)
    {
      if predicateName !in PREDICATES {
        return CorrectionResult(false, UnknownPredicate(predicateName, Join(", ", PREDICATE_NAMES)), 0, [], store.ActiveCount());
      }
      res := RemoveWhere(PredicateTest(PREDICATES[predicateName]), "remove_by_predicate", predicateName, reason, now);
    }

    /** `list_corrections`: the audit log, its length and the store's removed count. */
    function ListCorrections(): (l: CorrectionListing)
      reads this, store, dashboard
      requires Valid()
      ensures l.corrections == dashboard.corrections && l.totalCorrections == |dashboard.corrections|
      ensures l.totalRecordsRemoved == store.RemovedCount()
    {
      CorrectionListing(dashboard.corrections, |dashboard.corrections|, store.RemovedCount())
    }

    /** `get_status`: the dashboard's status with the store's active and removed counts. */
    function GetStatus(): (s: SystemStatus)
      reads this, store, dashboard
      requires Valid()
      ensures s.totalActive == store.ActiveCount() && s.totalRemoved == store.RemovedCount()
      ensures s.totalActive + s.totalRemoved == store.TotalCount()
      ensures s.correctionsApplied == |dashboard.corrections|
      ensures s.conditionsRemoved == TotalAffected(dashboard.corrections)
      ensures s.totalConditionsLoaded == TotalReceived(dashboard.ingestionBatches)
    {
      store.CountsAddUp();
      dashboard.GetSystemStatus(store.ActiveCount(), store.RemovedCount())
    }

    /** `get_available_predicates`: each predicate's description, under its name. */
    function GetAvailablePredicates(): (m: map<string, string>)
      ensures m.Keys == PREDICATES.Keys
      ensures forall k :: k in m ==> m[k] == PREDICATES[k].description
    {
      map k | k in PREDICATES :: PREDICATES[k].description
    }
  }
}
