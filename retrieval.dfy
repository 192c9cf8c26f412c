/**
 * Retrieval: filtering the active records, grouping them by canonical code,
 * detecting overlapping onset periods, and the structured form of the
 * rendered answer.
 */
module Retrieval {
  import opened Base
  import opened Text
  import opened ConditionModel
  import opened Storage
  import opened Sorting

  // ---------------------------------------------------------------------------
  // Code systems and the canonical code of a record
  // ---------------------------------------------------------------------------

  /** The code-system labels a group reports; `TextLabel` is used only when a record has no code. */
  datatype SystemLabel = Icd10 | Snomed | Icd9 | Imo | TextLabel

  function LabelName(l: SystemLabel): string
  {
    match l
    case Icd10 => "ICD-10"
    case Snomed => "SNOMED"
    case Icd9 => "ICD-9"
    case Imo => "IMO"
    case TextLabel => "text"
  }

  /** The codes a record carries in one system (none for `TextLabel`). */
  function SystemCodes(r: ConditionRecord, l: SystemLabel): seq<string>
  {
    match l
    case Icd10 => r.icd10Codes
    case Snomed => r.snomedCodes
    case Icd9 => r.icd9Codes
    case Imo => r.imoCodes
    case TextLabel => []
  }

  datatype CanonicalKey = CanonicalKey(code: string, system: SystemLabel)

  /**
   * `_canonical_code`: a code of the most preferred system the record has
   * (ICD-10, then SNOMED, then ICD-9), else the lower-cased display name.
   */
  function CanonicalCode(r: ConditionRecord): (k: CanonicalKey)
    ensures k.system == Icd10 <==> r.icd10Codes != []
    ensures k.system == Snomed <==> r.icd10Codes == [] && r.snomedCodes != []
    ensures k.system == Icd9 <==> r.icd10Codes == [] && r.snomedCodes == [] && r.icd9Codes != []
    ensures k.system == TextLabel <==> r.icd10Codes == [] && r.snomedCodes == [] && r.icd9Codes == []
    ensures k.system != Imo
    ensures k.system != TextLabel ==> k.code in SystemCodes(r, k.system)
    ensures k.system == TextLabel ==> k.code == Lower(r.displayName)
  {
    if r.icd10Codes != [] then CanonicalKey(r.icd10Codes[0], Icd10)
    else if r.snomedCodes != [] then CanonicalKey(r.snomedCodes[0], Snomed)
    else if r.icd9Codes != [] then CanonicalKey(r.icd9Codes[0], Icd9)
    else CanonicalKey(Lower(r.displayName), TextLabel)
  }

  /** The key a record is grouped under. */
  function KeyOf(r: ConditionRecord): string
  {
    CanonicalCode(r).code
  }

  /** `_code_labels`: each system the record has codes in, with those codes. */
  function CodeLabels(r: ConditionRecord): (m: map<SystemLabel, set<string>>)
    ensures forall l :: l in m <==> SystemCodes(r, l) != []
    ensures forall l :: l in m ==> m[l] == set c | c in SystemCodes(r, l)
  {
    var m0: map<SystemLabel, set<string>> := map[];
    var m1 := if r.icd10Codes != [] then m0[Icd10 := set c | c in r.icd10Codes] else m0;
    var m2 := if r.snomedCodes != [] then m1[Snomed := set c | c in r.snomedCodes] else m1;
    var m3 := if r.icd9Codes != [] then m2[Icd9 := set c | c in r.icd9Codes] else m2;
    if r.imoCodes != [] then m3[Imo := set c | c in r.imoCodes] else m3
  }

  /** The canonical code of a coded record is among its code labels, and every labelled code is one of its codes. */
  lemma CodeLabelsCover(r: ConditionRecord)
    requires WellFormed(r)
    ensures var k := CanonicalCode(r); k.system != TextLabel ==> k.system in CodeLabels(r) && k.code in CodeLabels(r)[k.system]
    ensures TextLabel !in CodeLabels(r)
    ensures forall l, c :: l in CodeLabels(r) && c in CodeLabels(r)[l] ==> c in r.allCodes
  {
  }

  // ---------------------------------------------------------------------------
  // Filters
  // ---------------------------------------------------------------------------

  /** `_matches_text`: the lower-cased query occurs in the searchable text. */
  predicate MatchesText(r: ConditionRecord, query: string)
  {
    Contains(r.searchableText, Lower(query))
  }

  /** The code-system names `_matches_code` accepts, after lower-casing. */
  const SYSTEM_ALIASES: map<string, SystemLabel> := map[
    "icd10" := Icd10, "icd-10" := Icd10, "snomed" := Snomed,
    "icd9" := Icd9, "icd-9" := Icd9, "imo" := Imo]

  /**
   * `_matches_code`: with a known code system, the code must be in that
   * system; with none, or an unknown one, in any system.
   */
  predicate MatchesCode(r: ConditionRecord, code: string, codeSystem: Option<string>)
  {
    if Truthy(codeSystem) && Lower(codeSystem.value) in SYSTEM_ALIASES then
      code in SystemCodes(r, SYSTEM_ALIASES[Lower(codeSystem.value)])
    else code in r.allCodes
  }

  /** Naming a code system only narrows a code search, and an unknown system does not narrow it. */
  lemma MatchesCodeNarrows(r: ConditionRecord, code: string, codeSystem: Option<string>)
    requires WellFormed(r)
    ensures MatchesCode(r, code, codeSystem) ==> MatchesCode(r, code, None)
    ensures !(Truthy(codeSystem) && Lower(codeSystem.value) in SYSTEM_ALIASES) ==>
              (MatchesCode(r, code, codeSystem) <==> code in r.allCodes)
  {
  }

  /** `_matches_status`: the normalised status equals the lower-cased filter. */
  predicate MatchesStatus(r: ConditionRecord, status: string)
  {
    r.normalizedStatus == Lower(status)
  }

  function TextFilter(query: string): ConditionRecord -> bool
  {
    r => MatchesText(r, query)
  }

  function CodeFilter(code: string, codeSystem: Option<string>): ConditionRecord -> bool
  {
    r => MatchesCode(r, code, codeSystem)
  }

  function StatusFilter(status: string): ConditionRecord -> bool
  {
    r => MatchesStatus(r, status)
  }

  /** The candidates of `retrieve`: each filter whose argument is truthy applied in turn. */
  function Candidates(active: seq<ConditionRecord>, query: Option<string>, code: Option<string>,
                      codeSystem: Option<string>, status: Option<string>): seq<ConditionRecord>
  {
    var byText := if Truthy(query) then Filter(active, TextFilter(query.value)) else active;
    var byCode := if Truthy(code) then Filter(byText, CodeFilter(code.value, codeSystem)) else byText;
    if Truthy(status) then Filter(byCode, StatusFilter(status.value)) else byCode
  }

  /** A record passes every filter whose argument is given. */
  predicate Selected(r: ConditionRecord, query: Option<string>, code: Option<string>,
                     codeSystem: Option<string>, status: Option<string>)
  {
    && (Truthy(query) ==> MatchesText(r, query.value))
    && (Truthy(code) ==> MatchesCode(r, code.value, codeSystem))
    && (Truthy(status) ==> MatchesStatus(r, status.value))
  }

  function SelectedFilter(query: Option<string>, code: Option<string>,
                          codeSystem: Option<string>, status: Option<string>): ConditionRecord -> bool
  {
    r => Selected(r, query, code, codeSystem, status)
  }

  /** Filtering twice is filtering once by the conjunction. */
  lemma {:induction false} FilterTwice<T>(s: seq<T>, p: T -> bool, q: T -> bool, pq: T -> bool)
    requires forall x :: pq(x) == (p(x) && q(x))
    ensures Filter(Filter(s, p), q) == Filter(s, pq)
  {
    if s != [] {
      var init := s[..|s| - 1];
      var last := s[|s| - 1];
      FilterTwice(init, p, q, pq);
      assert Filter(s, p) == Filter(init, p) + (if p(last) then [last] else []);
      assert Filter(s, pq) == Filter(init, pq) + (if pq(last) then [last] else []);
      assert pq(last) == (p(last) && q(last));
      if p(last) {
        FilterAppend(Filter(init, p), last, q);
        assert Filter(Filter(s, p), q) == Filter(Filter(init, p), q) + (if q(last) then [last] else []);
      } else {
        assert Filter(s, p) == Filter(init, p);
      }
    }
  }

  /** Filters that agree on every element give the same result. */
  lemma {:induction false} FilterSame<T>(s: seq<T>, p: T -> bool, q: T -> bool)
    requires forall x :: p(x) == q(x)
    ensures Filter(s, p) == Filter(s, q)
  {
    if s != [] {
      FilterSame(s[..|s| - 1], p, q);
    }
  }

  /** A truthy filter of the conjunction and a filter that only keeps what passes the conjunction. */
  function Conj(p: ConditionRecord -> bool, on: bool, q: ConditionRecord -> bool): ConditionRecord -> bool
  {
    r => p(r) && (on ==> q(r))
  }

  function Always(): ConditionRecord -> bool
  {
    r => true
  }

  /** Keeping what passes `p` and then, when `on`, what passes `q`, is one filter by the combination. */
  lemma FilterStep(s: seq<ConditionRecord>, p: ConditionRecord -> bool, on: bool, q: ConditionRecord -> bool)
    ensures (if on then Filter(Filter(s, p), q) else Filter(s, p)) == Filter(s, Conj(p, on, q))
  {
    if on {
      FilterTwice(s, p, q, Conj(p, on, q));
    } else {
      FilterSame(s, p, Conj(p, on, q));
    }
  }

  lemma {:induction false} FilterAll<T>(s: seq<T>, p: T -> bool)
    requires forall x :: p(x)
    ensures Filter(s, p) == s
  {
    if s != [] {
      FilterAll(s[..|s| - 1], p);
    }
  }

  /** Membership in a filtered sequence, both ways. */
  lemma FilterMembers<T>(s: seq<T>, p: T -> bool)
    ensures forall x :: x in Filter(s, p) <==> x in s && p(x)
  {
    forall x | x in s && p(x) ensures x in Filter(s, p) {
      var i :| 0 <= i < |s| && s[i] == x;
    }
  }

  /**
   * The candidates are the active records that pass every given filter, in
   * the store's order: one list comprehension over the active records with
   * the conjunction of the filters.
   */
  lemma CandidatesAreSelected(active: seq<ConditionRecord>, query: Option<string>, code: Option<string>,
                              codeSystem: Option<string>, status: Option<string>)
    ensures Candidates(active, query, code, codeSystem, status) == Filter(active, SelectedFilter(query, code, codeSystem, status))
  {
    var t := TextFilter(if query.Some? then query.value else "");
    var c := CodeFilter(if code.Some? then code.value else "", codeSystem);
    var st := StatusFilter(if status.Some? then status.value else "");
    FilterAll(active, Always());
    FilterStep(active, Always(), Truthy(query), t);
    var p1 := Conj(Always(), Truthy(query), t);
    FilterStep(active, p1, Truthy(code), c);
    var p2 := Conj(p1, Truthy(code), c);
    FilterStep(active, p2, Truthy(status), st);
    var p3 := Conj(p2, Truthy(status), st);
    var sel := SelectedFilter(query, code, codeSystem, status);
    forall x ensures p3(x) == sel(x) {
      assert p3(x) == ((Truthy(query) ==> t(x)) && (Truthy(code) ==> c(x)) && (Truthy(status) ==> st(x)));
    }
    FilterSame(active, p3, sel);
  }

  /** A record is a candidate exactly when it is active and passes every given filter. */
  lemma CandidatesMembers(active: seq<ConditionRecord>, query: Option<string>, code: Option<string>,
                          codeSystem: Option<string>, status: Option<string>)
    ensures forall r :: r in Candidates(active, query, code, codeSystem, status) <==>
              r in active && Selected(r, query, code, codeSystem, status)
  {
    CandidatesAreSelected(active, query, code, codeSystem, status);
    FilterMembers(active, SelectedFilter(query, code, codeSystem, status));
  }

  // ---------------------------------------------------------------------------
  // Groups
  // ---------------------------------------------------------------------------

  /** The whole days since the epoch of an instant: the `YYYY-MM-DD` prefix of its ISO form, in the offset all timestamps share. */
  function OnsetDay(t: int): int
  {
    t / 86400
  }

  /** `ConditionGroup`; onset dates are day numbers. */
  datatype ConditionGroup = ConditionGroup(
    canonicalCode: string,
    codeSystemLabel: SystemLabel,
    displayName: string,
    allCodes: map<SystemLabel, set<string>>,
    statuses: set<string>,
    encounterCount: nat,
    earliestOnset: Option<int>,
    latestOnset: Option<int>,
    qualityFlags: set<string>,
    hasOverlappingDates: bool,
    consolidatedRecordCount: nat,
    derivedFromSourceCount: nat)

  /** The group a record opens, with the dataclass defaults. */
  function NewGroup(r: ConditionRecord): ConditionGroup
  {
    var k := CanonicalCode(r);
    ConditionGroup(k.code, k.system, r.displayName, CodeLabels(r), {}, 0, None, None, {}, false, 0, 0)
  }

  function CodesAt(m: map<SystemLabel, set<string>>, l: SystemLabel): set<string>
  {
    if l in m then m[l] else {}
  }

  /** `setdefault(label, set()).update(codes)` for every label of `b`. */
  function MergeCodes(a: map<SystemLabel, set<string>>, b: map<SystemLabel, set<string>>): (m: map<SystemLabel, set<string>>)
    ensures forall l :: l in m <==> l in a || l in b
    ensures forall l :: l in m ==> m[l] == CodesAt(a, l) + CodesAt(b, l)
  {
    map l | l in a.Keys + b.Keys :: CodesAt(a, l) + CodesAt(b, l)
  }

  function MinOnset(cur: Option<int>, day: int): Option<int>
  {
    if cur.None? || day < cur.value then Some(day) else cur
  }

  function MaxOnset(cur: Option<int>, day: int): Option<int>
  {
    if cur.None? || day > cur.value then Some(day) else cur
  }

  /** One pass of the grouping loop's body for a record of the group. */
  function AddMember(g: ConditionGroup, r: ConditionRecord): ConditionGroup
  {
    var derived := r.derivedFromIds != [];
    g.(encounterCount := g.encounterCount + 1,
       statuses := g.statuses + {r.normalizedStatus},
       qualityFlags := g.qualityFlags + (set f | f in r.qualityFlags),
       consolidatedRecordCount := g.consolidatedRecordCount + (if derived then 1 else 0),
       derivedFromSourceCount := g.derivedFromSourceCount + (if derived then |r.derivedFromIds| else 0),
       allCodes := MergeCodes(g.allCodes, CodeLabels(r)),
       earliestOnset := if r.onsetStart.Some? then MinOnset(g.earliestOnset, OnsetDay(r.onsetStart.value)) else g.earliestOnset,
       latestOnset := if r.onsetStart.Some? then MaxOnset(g.latestOnset, OnsetDay(r.onsetStart.value)) else g.latestOnset)
  }

  /** The group built from its members, in the order they arrive: the first opens it. */
  function Aggregate(ms: seq<ConditionRecord>): ConditionGroup
    requires ms != []
  {
    if |ms| == 1 then AddMember(NewGroup(ms[0]), ms[0])
    else AddMember(Aggregate(ms[..|ms| - 1]), ms[|ms| - 1])
  }

  lemma AggregateAppend(ms: seq<ConditionRecord>, r: ConditionRecord)
    requires ms != []
    ensures Aggregate(ms + [r]) == AddMember(Aggregate(ms), r)
  {
    assert (ms + [r])[..|ms|] == ms;
  }

  predicate IsConsolidated(r: ConditionRecord)
  {
    r.derivedFromIds != []
  }

  /** A group takes its code, label and name from its first member, and counts every member. */
  lemma {:induction false} AggregateCounts(ms: seq<ConditionRecord>)
    requires ms != []
    ensures var g := Aggregate(ms);
      && g.canonicalCode == KeyOf(ms[0])
      && g.codeSystemLabel == CanonicalCode(ms[0]).system
      && g.displayName == ms[0].displayName
      && g.encounterCount == |ms|
      && g.consolidatedRecordCount == |Filter(ms, IsConsolidated)|
      && g.consolidatedRecordCount <= g.derivedFromSourceCount
      && !g.hasOverlappingDates
  {
    if |ms| > 1 {
      var init := ms[..|ms| - 1];
      AggregateCounts(init);
      assert init[0] == ms[0];
    }
  }

  /** A group's statuses are those of its members. */
  lemma {:induction false} AggregateStatuses(ms: seq<ConditionRecord>)
    requires ms != []
    ensures forall st :: st in Aggregate(ms).statuses <==> exists r :: r in ms && r.normalizedStatus == st
  {
    if |ms| > 1 {
      var init := ms[..|ms| - 1];
      AggregateStatuses(init);
      assert ms == init + [ms[|ms| - 1]];
    } else {
      assert ms == [ms[0]];
    }
  }

  /** A group's quality flags are those of its members. */
  lemma {:induction false} AggregateFlags(ms: seq<ConditionRecord>)
    requires ms != []
    ensures forall f :: f in Aggregate(ms).qualityFlags <==> exists r :: r in ms && f in r.qualityFlags
  {
    if |ms| > 1 {
      var init := ms[..|ms| - 1];
      AggregateFlags(init);
      assert ms == init + [ms[|ms| - 1]];
    } else {
      assert ms == [ms[0]];
    }
  }

  /** A group lists exactly the systems its members have codes in. */
  lemma {:induction false} AggregateSystems(ms: seq<ConditionRecord>)
    requires ms != []
    ensures forall l :: l in Aggregate(ms).allCodes <==> exists r :: r in ms && SystemCodes(r, l) != []
  {
    if |ms| > 1 {
      var init := ms[..|ms| - 1];
      AggregateSystems(init);
      assert ms == init + [ms[|ms| - 1]];
    } else {
      assert ms == [ms[0]];
    }
  }

  /** Under each system a group lists exactly the codes its members carry in that system. */
  lemma {:induction false} AggregateCodes(ms: seq<ConditionRecord>)
    requires ms != []
    ensures forall l, c :: l in Aggregate(ms).allCodes ==>
              (c in Aggregate(ms).allCodes[l] <==> exists r :: r in ms && c in SystemCodes(r, l))
  {
    if |ms| > 1 {
      var init := ms[..|ms| - 1];
      AggregateCodes(init);
      AggregateSystems(init);
      assert ms == init + [ms[|ms| - 1]];
    } else {
      assert ms == [ms[0]];
    }
  }

  predicate HasOnset(r: ConditionRecord)
  {
    r.onsetStart.Some?
  }

  /** The earliest onset day of the records, as the grouping loop keeps it. */
  function Earliest(ms: seq<ConditionRecord>): Option<int>
  {
    if ms == [] then None
    else
      var e := Earliest(ms[..|ms| - 1]);
      var r := ms[|ms| - 1];
      if r.onsetStart.Some? then MinOnset(e, OnsetDay(r.onsetStart.value)) else e
  }

  /** The latest onset day of the records, as the grouping loop keeps it. */
  function Latest(ms: seq<ConditionRecord>): Option<int>
  {
    if ms == [] then None
    else
      var e := Latest(ms[..|ms| - 1]);
      var r := ms[|ms| - 1];
      if r.onsetStart.Some? then MaxOnset(e, OnsetDay(r.onsetStart.value)) else e
  }

  /** A group's onset dates are the earliest and latest onset days of its members. */
  lemma {:induction false} AggregateOnsets(ms: seq<ConditionRecord>)
    requires ms != []
    ensures Aggregate(ms).earliestOnset == Earliest(ms)
    ensures Aggregate(ms).latestOnset == Latest(ms)
  {
    if |ms| > 1 {
      AggregateOnsets(ms[..|ms| - 1]);
    } else {
      assert ms[..0] == [];
    }
  }

  lemma {:induction false} OnsetsPresent(ms: seq<ConditionRecord>)
    ensures Earliest(ms).Some? <==> exists r :: r in ms && HasOnset(r)
    ensures Latest(ms).Some? <==> Earliest(ms).Some?
  {
    if ms != [] {
      var init, last := ms[..|ms| - 1], ms[|ms| - 1];
      OnsetsPresent(init);
      assert ms == init + [last];
      if HasOnset(last) {
        assert Earliest(ms).Some? && Latest(ms).Some? && last in ms;
      } else {
        assert Earliest(ms) == Earliest(init) && Latest(ms) == Latest(init);
        if exists r :: r in ms && HasOnset(r) {
          var r :| r in ms && HasOnset(r);
          assert r in init;
        }
        if exists r :: r in init && HasOnset(r) {
          var r :| r in init && HasOnset(r);
          assert r in ms;
        }
      }
    }
  }

  lemma {:induction false} OnsetsBound(ms: seq<ConditionRecord>)
    ensures forall r :: r in ms && HasOnset(r) ==>
      && Earliest(ms).Some? && Earliest(ms).value <= OnsetDay(r.onsetStart.value)
      && Latest(ms).Some? && OnsetDay(r.onsetStart.value) <= Latest(ms).value
  {
    if ms != [] {
      var init, last := ms[..|ms| - 1], ms[|ms| - 1];
      OnsetsBound(init);
      assert ms == init + [last];
    }
  }

  lemma {:induction false} EarliestAttained(ms: seq<ConditionRecord>)
    requires Earliest(ms).Some?
    ensures exists r :: r in ms && HasOnset(r) && OnsetDay(r.onsetStart.value) == Earliest(ms).value
  {
    var init, last := ms[..|ms| - 1], ms[|ms| - 1];
    assert ms == init + [last];
    if HasOnset(last) && Earliest(ms) == Some(OnsetDay(last.onsetStart.value)) {
      assert last in ms;
    } else {
      EarliestAttained(init);
      var r :| r in init && HasOnset(r) && OnsetDay(r.onsetStart.value) == Earliest(init).value;
      assert r in ms;
    }
  }

  lemma {:induction false} LatestAttained(ms: seq<ConditionRecord>)
    requires Latest(ms).Some?
    ensures exists r :: r in ms && HasOnset(r) && OnsetDay(r.onsetStart.value) == Latest(ms).value
  {
    var init, last := ms[..|ms| - 1], ms[|ms| - 1];
    assert ms == init + [last];
    if HasOnset(last) && Latest(ms) == Some(OnsetDay(last.onsetStart.value)) {
      assert last in ms;
    } else {
      LatestAttained(init);
      var r :| r in init && HasOnset(r) && OnsetDay(r.onsetStart.value) == Latest(init).value;
      assert r in ms;
    }
  }

  /** A group has onset dates exactly when one of its members has an onset start. */
  lemma AggregateHasOnset(ms: seq<ConditionRecord>)
    requires ms != []
    ensures Aggregate(ms).earliestOnset.Some? <==> exists r :: r in ms && HasOnset(r)
    ensures Aggregate(ms).latestOnset.Some? <==> Aggregate(ms).earliestOnset.Some?
  {
    AggregateOnsets(ms);
    OnsetsPresent(ms);
  }

  /** Every member's onset day lies between the group's earliest and latest onset. */
  lemma AggregateOnsetBounds(ms: seq<ConditionRecord>)
    requires ms != []
    ensures var g := Aggregate(ms);
      forall r :: r in ms && HasOnset(r) ==>
        && g.earliestOnset.Some? && g.earliestOnset.value <= OnsetDay(r.onsetStart.value)
        && g.latestOnset.Some? && OnsetDay(r.onsetStart.value) <= g.latestOnset.value
  {
    AggregateOnsets(ms);
    OnsetsBound(ms);
  }

  /** The group's earliest onset is some member's onset day. */
  lemma AggregateEarliestAttained(ms: seq<ConditionRecord>)
    requires ms != [] && Aggregate(ms).earliestOnset.Some?
    ensures exists r :: r in ms && HasOnset(r) && OnsetDay(r.onsetStart.value) == Aggregate(ms).earliestOnset.value
  {
    AggregateOnsets(ms);
    EarliestAttained(ms);
  }

  /** The group's latest onset is some member's onset day. */
  lemma AggregateLatestAttained(ms: seq<ConditionRecord>)
    requires ms != [] && Aggregate(ms).latestOnset.Some?
    ensures exists r :: r in ms && HasOnset(r) && OnsetDay(r.onsetStart.value) == Aggregate(ms).latestOnset.value
  {
    AggregateOnsets(ms);
    LatestAttained(ms);
  }

  // ---------------------------------------------------------------------------
  // Onset periods and overlap
  // ---------------------------------------------------------------------------

  /** An onset period `(start, end)`, as instants. */
  datatype Period = Period(start: int, end: int)

  function StartOf(p: Period): int
  {
    p.start
  }

  /** The periods of the members that have both an onset start and an onset end, in order. */
  function Periods(ms: seq<ConditionRecord>): seq<Period>
  {
    if ms == [] then []
    else
      Periods(ms[..|ms| - 1]) + RecordPeriod(ms[|ms| - 1])
  }

  /** Some period, in the order given, starts before the one just before it ends. */
  predicate AdjacentOverlap(s: seq<Period>)
  {
    exists i :: 1 <= i < |s| && s[i].start < s[i - 1].end
  }

  /** `_detect_overlapping_onset_periods`: sorts by start and compares each period with the one before. */
  method DetectOverlappingOnsetPeriods(periods: seq<Period>) returns (overlap: bool)
    ensures overlap <==> AdjacentOverlap(SortBy(periods, StartOf))
  {
    var sorted := SortBy(periods, StartOf);
    var i := 1;
    while i < |sorted|
      invariant 1 <= i <= |sorted| + 1
      invariant forall j :: 1 <= j < i && j < |sorted| ==> sorted[j - 1].end <= sorted[j].start
    {
      if sorted[i].start < sorted[i - 1].end {
        return true;
      }
      i := i + 1;
    }
    return false;
  }

  /** Some period starts before an earlier-listed one ends. */
  predicate OverlappingPair(s: seq<Period>)
  {
    exists i, j :: 0 <= i < j < |s| && s[j].start < s[i].end
  }

  /**
   * Comparing neighbours finds every overlap: among start-sorted periods,
   * some period starts before an earlier-starting one ends exactly when a
   * neighbour does. A period may end before it starts.
   */
  lemma AdjacentOverlapComplete(s: seq<Period>)
    requires SortedBy(s, StartOf)
    ensures AdjacentOverlap(s) <==> OverlappingPair(s)
  {
    if OverlappingPair(s) {
      var i, j :| 0 <= i < j < |s| && s[j].start < s[i].end;
      OverlapIsAdjacent(s, i, j);
    }
    if AdjacentOverlap(s) {
      AdjacentIsOverlap(s);
    }
  }

  /**
   * In start-sorted periods, any overlapping pair forces an overlapping pair
   * of neighbours: the period after the earlier one starts no later than the
   * later one.
   */
  lemma OverlapIsAdjacent(s: seq<Period>, i: nat, j: nat)
    requires SortedBy(s, StartOf) && i < j < |s| && s[j].start < s[i].end
    ensures AdjacentOverlap(s)
  {
    assert StartOf(s[i + 1]) <= StartOf(s[j]);
    assert 1 <= i + 1 < |s| && s[i + 1].start < s[i].end;
  }

  /** An overlapping pair of neighbours is an overlapping pair. */
  lemma AdjacentIsOverlap(s: seq<Period>)
    requires AdjacentOverlap(s)
    ensures OverlappingPair(s)
  {
    var k :| 1 <= k < |s| && s[k].start < s[k - 1].end;
    assert 0 <= k - 1 < k < |s| && s[k].start < s[k - 1].end;
  }

  /** The periods a record contributes: one when it has both an onset start and an onset end. */
  function RecordPeriod(r: ConditionRecord): seq<Period>
  {
    if r.onsetStart.Some? && r.onsetEnd.Some? then [Period(r.onsetStart.value, r.onsetEnd.value)] else []
  }

  /** `len(periods) >= 2 and _detect_overlapping_onset_periods(periods)`. */
  predicate OverlapFlag(ps: seq<Period>)
  {
    |ps| >= 2 && AdjacentOverlap(SortBy(ps, StartOf))
  }

  /**
   * On start-sorted periods, two or more periods with a neighbour overlap
   * are exactly an overlapping pair.
   */
  lemma SortedFlagMeaning(s: seq<Period>)
    requires SortedBy(s, StartOf)
    ensures (|s| >= 2 && AdjacentOverlap(s)) <==> OverlappingPair(s)
  {
    AdjacentOverlapComplete(s);
  }

  /**
   * A group is flagged exactly when, with its periods sorted by start, some
   * period starts before an earlier-starting one ends.
   */
  lemma OverlapFlagMeaning(ps: seq<Period>)
    ensures OverlapFlag(ps) <==> OverlappingPair(SortBy(ps, StartOf))
  {
    SortBySorted(ps, StartOf);
    SortedFlagMeaning(SortBy(ps, StartOf));
  }

  // ---------------------------------------------------------------------------
  // Grouping
  // ---------------------------------------------------------------------------

  function InGroup(k: string): ConditionRecord -> bool
  {
    r => KeyOf(r) == k
  }

  /** The records grouped under `k`, in order. */
  function Members(rs: seq<ConditionRecord>, k: string): seq<ConditionRecord>
  {
    Filter(rs, InGroup(k))
  }

  /** The group keys in the order their first record arrives: the dictionary's insertion order. */
  function GroupKeys(rs: seq<ConditionRecord>): (keys: seq<string>)
    ensures NoDup(keys) && |keys| <= |rs|
    ensures forall k :: k in keys <==> exists r :: r in rs && KeyOf(r) == k
  {
    if rs == [] then []
    else
      assert rs == rs[..|rs| - 1] + [rs[|rs| - 1]];
      AddUnique(GroupKeys(rs[..|rs| - 1]), KeyOf(rs[|rs| - 1]))
  }

  lemma GroupKeysAppend(rs: seq<ConditionRecord>, r: ConditionRecord)
    ensures GroupKeys(rs + [r]) == AddUnique(GroupKeys(rs), KeyOf(r))
  {
    assert (rs + [r])[..|rs|] == rs;
  }

  /** A key has members exactly when it is one of the group keys. */
  lemma MembersNonEmpty(rs: seq<ConditionRecord>, k: string)
    ensures Members(rs, k) != [] <==> k in GroupKeys(rs)
  {
    FilterMembers(rs, InGroup(k));
    if Members(rs, k) != [] {
      assert Members(rs, k)[0] in Members(rs, k);
    }
  }

  lemma MembersAppend(rs: seq<ConditionRecord>, r: ConditionRecord, k: string)
    ensures Members(rs + [r], k) == Members(rs, k) + (if KeyOf(r) == k then [r] else [])
  {
    FilterAppend(rs, r, InGroup(k));
  }

  /** Every record is a member of the group of its own key and of no other. */
  lemma MembersPartition(rs: seq<ConditionRecord>)
    ensures forall r :: r in rs ==> KeyOf(r) in GroupKeys(rs) && r in Members(rs, KeyOf(r))
    ensures forall r, k :: r in Members(rs, k) ==> r in rs && KeyOf(r) == k
  {
    forall k {
      FilterMembers(rs, InGroup(k));
    }
  }

  /** A finished group: the aggregate of its members with the overlap flag set. */
  function Finish(ms: seq<ConditionRecord>): ConditionGroup
    requires ms != []
  {
    Aggregate(ms).(hasOverlappingDates := OverlapFlag(Periods(ms)))
  }

  /** The finished group of a key that has members. */
  function GroupOf(rs: seq<ConditionRecord>, k: string): ConditionGroup
    requires k in GroupKeys(rs)
  {
    MembersNonEmpty(rs, k);
    Finish(Members(rs, k))
  }

  /** The finished groups of the given keys, in that order. */
  function GroupsFor(rs: seq<ConditionRecord>, keys: seq<string>): (gs: seq<ConditionGroup>)
    requires forall k :: k in keys ==> k in GroupKeys(rs)
    ensures |gs| == |keys|
  {
    seq(|keys|, i requires 0 <= i < |keys| => GroupOf(rs, keys[i]))
  }

  lemma GroupsForNext(rs: seq<ConditionRecord>, keys: seq<string>, j: nat)
    requires j < |keys| && forall k :: k in keys ==> k in GroupKeys(rs)
    ensures Members(rs, keys[j]) != []
    ensures GroupsFor(rs, keys[..j + 1]) == GroupsFor(rs, keys[..j]) + [Finish(Members(rs, keys[j]))]
  {
    assert keys[j] in keys;
    MembersNonEmpty(rs, keys[j]);
    var a := GroupsFor(rs, keys[..j + 1]);
    var b := GroupsFor(rs, keys[..j]);
    forall i | 0 <= i < j ensures a[i] == b[i] {
      GroupsForPrefixAt(rs, keys, j, i);
    }
    GroupsForIndex(rs, keys[..j + 1], j);
    SnocEqual(a, b, Finish(Members(rs, keys[j])));
  }

  /** A longer prefix of keys gives the same group at an earlier position. */
  lemma GroupsForPrefixAt(rs: seq<ConditionRecord>, keys: seq<string>, j: nat, i: nat)
    requires i < j < |keys| && forall k :: k in keys ==> k in GroupKeys(rs)
    ensures GroupsFor(rs, keys[..j + 1])[i] == GroupsFor(rs, keys[..j])[i]
  {
    assert keys[..j + 1][i] == keys[..j][i];
  }

  function NegEncounters(g: ConditionGroup): int
  {
    -(g.encounterCount as int)
  }

  function EncounterCount(g: ConditionGroup): int
  {
    g.encounterCount
  }

  /** `group_by_canonical_code` as a value: the groups sorted by encounter count, most first, ties in key order. */
  function Grouped(rs: seq<ConditionRecord>): seq<ConditionGroup>
  {
    SortBy(GroupsFor(rs, GroupKeys(rs)), NegEncounters)
  }

  /** The grouping loop's dictionaries have one entry per key seen, in that order. */
  ghost predicate KeysTrack(rs: seq<ConditionRecord>, keys: seq<string>, groups: map<string, ConditionGroup>,
                            periodsBy: map<string, seq<Period>>)
  {
    && keys == GroupKeys(rs)
    && (forall k :: k in groups <==> k in keys)
    && (forall k :: k in periodsBy <==> k in keys)
  }

  /** Each group so far is the aggregate of its members so far. */
  ghost predicate GroupsTrack(rs: seq<ConditionRecord>, groups: map<string, ConditionGroup>)
  {
    forall k :: k in groups ==> Members(rs, k) != [] && groups[k] == Aggregate(Members(rs, k))
  }

  /** Each group's period list so far is the periods of its members so far. */
  ghost predicate PeriodsTrack(rs: seq<ConditionRecord>, periodsBy: map<string, seq<Period>>)
  {
    forall k :: k in periodsBy ==> periodsBy[k] == Periods(Members(rs, k))
  }

  ghost predicate Tracks(rs: seq<ConditionRecord>, keys: seq<string>, groups: map<string, ConditionGroup>,
                         periodsBy: map<string, seq<Period>>)
  {
    KeysTrack(rs, keys, groups, periodsBy) && GroupsTrack(rs, groups) && PeriodsTrack(rs, periodsBy)
  }

  lemma PeriodsAppendOne(ms: seq<ConditionRecord>, r: ConditionRecord)
    ensures Periods(ms + [r]) == Periods(ms) + RecordPeriod(r)
  {
    assert (ms + [r])[..|ms|] == ms;
  }

  lemma KeysTrackStep(rs: seq<ConditionRecord>, keys: seq<string>, groups: map<string, ConditionGroup>,
                      periodsBy: map<string, seq<Period>>, r: ConditionRecord, g: ConditionGroup, ps: seq<Period>)
    requires KeysTrack(rs, keys, groups, periodsBy)
    ensures KeysTrack(rs + [r], AddUnique(keys, KeyOf(r)), groups[KeyOf(r) := g], periodsBy[KeyOf(r) := ps])
  {
    GroupKeysAppend(rs, r);
  }

  lemma GroupsTrackStep(rs: seq<ConditionRecord>, groups: map<string, ConditionGroup>, r: ConditionRecord)
    requires GroupsTrack(rs, groups) && forall k :: k in groups <==> k in GroupKeys(rs)
    ensures var k := KeyOf(r);
      GroupsTrack(rs + [r], groups[k := AddMember(if k in groups then groups[k] else NewGroup(r), r)])
  {
    var k := KeyOf(r);
    var groups' := groups[k := AddMember(if k in groups then groups[k] else NewGroup(r), r)];
    forall j | j in groups' ensures Members(rs + [r], j) != [] && groups'[j] == Aggregate(Members(rs + [r], j)) {
      MembersAppend(rs, r, j);
      if j == k {
        if k in groups {
          AggregateAppend(Members(rs, k), r);
        } else {
          MembersNonEmpty(rs, k);
          assert Members(rs + [r], k) == [r];
        }
      } else {
        assert Members(rs + [r], j) == Members(rs, j);
        assert groups'[j] == groups[j];
      }
    }
  }

  lemma PeriodsTrackStep(rs: seq<ConditionRecord>, periodsBy: map<string, seq<Period>>, r: ConditionRecord)
    requires PeriodsTrack(rs, periodsBy) && forall k :: k in periodsBy <==> k in GroupKeys(rs)
    ensures var k := KeyOf(r);
      PeriodsTrack(rs + [r], periodsBy[k := (if k in periodsBy then periodsBy[k] else []) + RecordPeriod(r)])
  {
    var k := KeyOf(r);
    var periodsBy' := periodsBy[k := (if k in periodsBy then periodsBy[k] else []) + RecordPeriod(r)];
    forall j | j in periodsBy' ensures periodsBy'[j] == Periods(Members(rs + [r], j)) {
      MembersAppend(rs, r, j);
      if j == k {
        PeriodsAppendOne(Members(rs, k), r);
        if k !in periodsBy {
          MembersNonEmpty(rs, k);
        }
      } else {
        assert Members(rs + [r], j) == Members(rs, j);
        assert periodsBy'[j] == periodsBy[j];
      }
    }
  }

  /** The first loop of `group_by_canonical_code`: one pass over the records building each group and its onset periods. */
  method CollectGroups(records: seq<ConditionRecord>)
    returns (keys: seq<string>, groups: map<string, ConditionGroup>, periodsBy: map<string, seq<Period>>)
    ensures Tracks(records, keys, groups, periodsBy)
  {
    groups := map[];
    periodsBy := map[];
    keys := [];
    var i := 0;
    ghost var seen: seq<ConditionRecord> := [];
    while i < |records|
      invariant 0 <= i <= |records|
      invariant seen == records[..i]
      invariant Tracks(seen, keys, groups, periodsBy)
    {
      var r := records[i];
      var code := KeyOf(r);
      var group := NewGroup(r);
      var periods: seq<Period> := [];
      if code in groups {
        group := groups[code];
        periods := periodsBy[code];
      }
      ghost var rs := seen;
      KeysTrackStep(rs, keys, groups, periodsBy, r, AddMember(group, r), periods + RecordPeriod(r));
      GroupsTrackStep(rs, groups, r);
      PeriodsTrackStep(rs, periodsBy, r);
      ghost var keys' := AddUnique(keys, code);
      if code !in groups {
        keys := keys + [code];
      }
      assert keys == keys';
      groups := groups[code := AddMember(group, r)];
      periodsBy := periodsBy[code := periods + RecordPeriod(r)];
      assert KeysTrack(rs + [r], keys, groups, periodsBy);
      assert GroupsTrack(rs + [r], groups);
      assert PeriodsTrack(rs + [r], periodsBy);
      ExtendPrefix(records, seen, i);
      seen := seen + [r];
      i := i + 1;
    }
    assert records[..i] == records;
  }

  /** The overlap pass of `group_by_canonical_code`, group by group in key order. */
  method FlagOverlaps(records: seq<ConditionRecord>, keys: seq<string>, groups: map<string, ConditionGroup>,
                      periodsBy: map<string, seq<Period>>) returns (unsorted: seq<ConditionGroup>)
    requires Tracks(records, keys, groups, periodsBy)
    ensures unsorted == GroupsFor(records, keys)
  {
    unsorted := [];
    var j := 0;
    while j < |keys|
      invariant 0 <= j <= |keys|
      invariant unsorted == GroupsFor(records, keys[..j])
    {
      var code := keys[j];
      var periods := periodsBy[code];
      var overlap := GroupOverlaps(periods);
      var g := groups[code];
      if overlap {
        g := g.(hasOverlappingDates := true);
      }
      FlaggedGroup(records, keys, groups, periodsBy, j, overlap, g);
      unsorted := unsorted + [g];
      j := j + 1;
    }
    assert keys[..j] == keys;
  }

  /** `len(periods) >= 2 and _detect_overlapping_onset_periods(periods)`. */
  method GroupOverlaps(periods: seq<Period>) returns (overlap: bool)
    ensures overlap == OverlapFlag(periods)
    ensures overlap <==> |periods| >= 2 && OverlappingPair(SortBy(periods, StartOf))
  {
    overlap := false;
    if |periods| >= 2 {
      overlap := DetectOverlappingOnsetPeriods(periods);
    }
    OverlapFlagMeaning(periods);
  }

  /** One step of the overlap pass finishes the group of the `j`-th key. */
  lemma FlaggedGroup(records: seq<ConditionRecord>, keys: seq<string>, groups: map<string, ConditionGroup>,
                     periodsBy: map<string, seq<Period>>, j: nat, overlap: bool, g: ConditionGroup)
    requires Tracks(records, keys, groups, periodsBy) && j < |keys|
    requires overlap == OverlapFlag(periodsBy[keys[j]])
    requires g == if overlap then groups[keys[j]].(hasOverlappingDates := true) else groups[keys[j]]
    ensures GroupsFor(records, keys[..j]) + [g] == GroupsFor(records, keys[..j + 1])
  {
    var code := keys[j];
    assert code in keys;
    GroupsForNext(records, keys, j);
    AggregateCounts(Members(records, code));
    assert g == Finish(Members(records, code));
  }

  /** `group_by_canonical_code`: the groups, most encounters first. */
  method GroupByCanonicalCode(records: seq<ConditionRecord>) returns (result: seq<ConditionGroup>)
    ensures result == Grouped(records)
  {
    var keys, groups, periodsBy := CollectGroups(records);
    var unsorted := FlagOverlaps(records, keys, groups, periodsBy);
    result := SortBy(unsorted, NegEncounters);
  }

  // ---------------------------------------------------------------------------
  // What the grouping promises
  // ---------------------------------------------------------------------------

  /** The `j`-th group of `GroupsFor` is the finished group of the `j`-th key. */
  lemma {:induction false} GroupsForAt(rs: seq<ConditionRecord>, keys: seq<string>)
    requires forall k :: k in keys ==> k in GroupKeys(rs)
    ensures forall j :: 0 <= j < |keys| ==>
              Members(rs, keys[j]) != [] && GroupsFor(rs, keys)[j] == Finish(Members(rs, keys[j]))
  {
    forall j | 0 <= j < |keys| ensures Members(rs, keys[j]) != [] && GroupsFor(rs, keys)[j] == Finish(Members(rs, keys[j])) {
      assert keys[j] in keys;
      MembersNonEmpty(rs, keys[j]);
      GroupsForIndex(rs, keys, j);
    }
  }

  lemma GroupsForIndex(rs: seq<ConditionRecord>, keys: seq<string>, j: nat)
    requires forall k :: k in keys ==> k in GroupKeys(rs)
    requires j < |keys|
    ensures Members(rs, keys[j]) != []
    ensures GroupsFor(rs, keys)[j] == Finish(Members(rs, keys[j]))
  {
    assert keys[j] in keys;
    MembersNonEmpty(rs, keys[j]);
  }

  /** A finished group carries the key of its members. */
  lemma FinishCode(rs: seq<ConditionRecord>, k: string)
    requires Members(rs, k) != []
    ensures Finish(Members(rs, k)).canonicalCode == k
  {
    AggregateCounts(Members(rs, k));
  }

  lemma GroupOfGrouped(rs: seq<ConditionRecord>, g: ConditionGroup)
    requires g in Grouped(rs)
    ensures g.canonicalCode in GroupKeys(rs) && Members(rs, g.canonicalCode) != [] && g == Finish(Members(rs, g.canonicalCode))
  {
    GroupedFromUnsorted(rs, g);
    var keys := GroupKeys(rs);
    var unsorted := GroupsFor(rs, keys);
    var j :| 0 <= j < |unsorted| && unsorted[j] == g;
    GroupsForIndex(rs, keys, j);
    FinishCode(rs, keys[j]);
  }

  /** Sorting neither adds nor drops a group. */
  lemma GroupedFromUnsorted(rs: seq<ConditionRecord>, g: ConditionGroup)
    requires g in Grouped(rs)
    ensures g in GroupsFor(rs, GroupKeys(rs))
  {
    assert g in multiset(Grouped(rs));
  }

  /** There are at most as many groups as records, and at least one when there is a record. */
  lemma GroupedSize(rs: seq<ConditionRecord>)
    ensures |Grouped(rs)| == |GroupKeys(rs)| <= |rs|
    ensures rs != [] ==> Grouped(rs) != []
  {
    if rs != [] {
      assert KeyOf(rs[0]) in GroupKeys(rs);
    }
  }

  /**
   * The groups are one per key: every group is the finished aggregate of the
   * records carrying its code.
   */
  lemma GroupedAreGroups(rs: seq<ConditionRecord>)
    ensures |Grouped(rs)| == |GroupKeys(rs)| <= |rs|
    ensures rs != [] ==> Grouped(rs) != []
    ensures forall g :: g in Grouped(rs) ==>
              g.canonicalCode in GroupKeys(rs) && Members(rs, g.canonicalCode) != [] && g == Finish(Members(rs, g.canonicalCode))
  {
    GroupedSize(rs);
    forall g | g in Grouped(rs) ensures g.canonicalCode in GroupKeys(rs) && Members(rs, g.canonicalCode) != [] && g == Finish(Members(rs, g.canonicalCode)) {
      GroupOfGrouped(rs, g);
    }
  }

  /** Every key's group is among the groups. */
  lemma GroupedCoverKeys(rs: seq<ConditionRecord>)
    ensures forall k :: k in GroupKeys(rs) ==> Members(rs, k) != [] && Finish(Members(rs, k)) in Grouped(rs)
  {
    var keys := GroupKeys(rs);
    var unsorted := GroupsFor(rs, keys);
    GroupsForAt(rs, keys);
    forall k | k in keys ensures Members(rs, k) != [] && Finish(Members(rs, k)) in Grouped(rs) {
      var j :| 0 <= j < |keys| && keys[j] == k;
      assert unsorted[j] in multiset(unsorted);
    }
  }

  /** The groups come most encounters first. */
  lemma GroupedByEncounters(rs: seq<ConditionRecord>)
    ensures forall i, j :: 0 <= i < j < |Grouped(rs)| ==> Grouped(rs)[i].encounterCount >= Grouped(rs)[j].encounterCount
  {
    SortBySorted(GroupsFor(rs, GroupKeys(rs)), NegEncounters);
  }

  /**
   * Groups with equal encounter counts keep the order their first records
   * arrived in: for every key value `k` of the sort (minus an encounter count),
   * the groups with that value appear in the same order as before sorting.
   */
  lemma GroupedTiesInArrivalOrder(rs: seq<ConditionRecord>, k: int)
    ensures Filter(Grouped(rs), HasKey(NegEncounters, k)) == Filter(GroupsFor(rs, GroupKeys(rs)), HasKey(NegEncounters, k))
  {
    SortByStable(GroupsFor(rs, GroupKeys(rs)), NegEncounters, k);
  }

  /** The members of the given keys, counted. */
  function MemberTotal(rs: seq<ConditionRecord>, keys: seq<string>): nat
  {
    if keys == [] then 0 else MemberTotal(rs, keys[..|keys| - 1]) + |Members(rs, keys[|keys| - 1])|
  }

  lemma {:induction false} MemberTotalAppend(rs: seq<ConditionRecord>, r: ConditionRecord, keys: seq<string>)
    requires NoDup(keys)
    ensures MemberTotal(rs + [r], keys) == MemberTotal(rs, keys) + (if KeyOf(r) in keys then 1 else 0)
  {
    if keys != [] {
      var n := |keys| - 1;
      MemberTotalAppend(rs, r, keys[..n]);
      MembersAppend(rs, r, keys[n]);
      assert keys == keys[..n] + [keys[n]];
      assert KeyOf(r) in keys <==> KeyOf(r) in keys[..n] || KeyOf(r) == keys[n];
      assert !(KeyOf(r) in keys[..n] && KeyOf(r) == keys[n]);
    }
  }

  lemma MemberTotalSnoc(rs: seq<ConditionRecord>, keys: seq<string>, k: string)
    ensures MemberTotal(rs, keys + [k]) == MemberTotal(rs, keys) + |Members(rs, k)|
  {
    assert (keys + [k])[..|keys|] == keys;
  }

  /** Every record is counted under exactly one key. */
  lemma {:induction false} MemberTotalAll(rs: seq<ConditionRecord>)
    ensures MemberTotal(rs, GroupKeys(rs)) == |rs|
  {
    if rs != [] {
      var init := rs[..|rs| - 1];
      var r := rs[|rs| - 1];
      assert rs == init + [r];
      MemberTotalAll(init);
      GroupKeysAppend(init, r);
      var keys := GroupKeys(init);
      var k := KeyOf(r);
      MemberTotalAppend(init, r, keys);
      if k !in keys {
        MemberTotalSnoc(rs, keys, k);
        MembersNonEmpty(init, k);
        MembersAppend(init, r, k);
      }
    }
  }

  lemma {:induction false} GroupsForTotal(rs: seq<ConditionRecord>, keys: seq<string>)
    requires forall k :: k in keys ==> k in GroupKeys(rs)
    ensures SumBy(GroupsFor(rs, keys), EncounterCount) == MemberTotal(rs, keys)
  {
    if keys != [] {
      var n := |keys| - 1;
      GroupsForTotal(rs, keys[..n]);
      GroupsForNext(rs, keys, n);
      assert keys[..n + 1] == keys;
      AggregateCounts(Members(rs, keys[n]));
      SumByAppend(GroupsFor(rs, keys[..n]), Finish(Members(rs, keys[n])), EncounterCount);
    }
  }

  /** The groups partition the records: their encounter counts add up to the number of records. */
  lemma GroupedPartition(rs: seq<ConditionRecord>)
    ensures SumBy(Grouped(rs), EncounterCount) == |rs|
  {
    SortBySum(GroupsFor(rs, GroupKeys(rs)), NegEncounters, EncounterCount);
    GroupsForTotal(rs, GroupKeys(rs));
    MemberTotalAll(rs);
  }

  /** The periods checked for a group are those of its members that have both onset bounds. */
  lemma {:induction false} PeriodsOfMembers(ms: seq<ConditionRecord>)
    ensures forall p :: p in Periods(ms) <==> exists r :: r in ms && RecordPeriod(r) == [p]
  {
    if ms != [] {
      var init := ms[..|ms| - 1];
      PeriodsOfMembers(init);
      assert ms == init + [ms[|ms| - 1]];
    }
  }

  // ---------------------------------------------------------------------------
  // The summary of a group
  // ---------------------------------------------------------------------------

  /** The date part of a group's status line. */
  datatype DateRange = NoDates | OnDay(day: int) | Span(first: int, last: int)

  /** One `label: codes` part of a group's heading. */
  datatype CodePart = CodePart(system: SystemLabel, codes: set<string>)

  /** The consolidation note: how many records were consolidated and from how many sources. */
  datatype Consolidation = Consolidation(records: nat, sources: nat)

  /** What `format_group_for_llm` renders, field by field. */
  datatype GroupSummary = GroupSummary(
    displayName: string,
    codeParts: seq<CodePart>,
    statuses: set<string>,
    encounterCount: nat,
    dates: DateRange,
    overlapNote: bool,
    consolidation: Option<Consolidation>,
    warnings: set<string>)

  /** The place of a label in the sorted order of the label names. */
  function LabelRank(l: SystemLabel): int
  {
    match l
    case Icd10 => 0
    case Icd9 => 1
    case Imo => 2
    case Snomed => 3
    case TextLabel => 4
  }

  const LABEL_ORDER: seq<SystemLabel> := [Icd10, Icd9, Imo, Snomed]

  /** The rank order of the code-system labels is the order of their names. */
  lemma RankOrdersNames(a: SystemLabel, b: SystemLabel)
    requires a != TextLabel && b != TextLabel && LabelRank(a) < LabelRank(b)
    ensures LexLess(LabelName(a), LabelName(b))
  {
    assert LabelName(Icd10) == "ICD-10" && LabelName(Icd9) == "ICD-9";
    assert "ICD-10"[1..] == "CD-10" && "CD-10"[1..] == "D-10" && "D-10"[1..] == "-10" && "-10"[1..] == "10";
    assert "ICD-9"[1..] == "CD-9" && "CD-9"[1..] == "D-9" && "D-9"[1..] == "-9" && "-9"[1..] == "9";
    assert "IMO"[1..] == "MO" && "ICD-10"[0] == "IMO"[0] && "ICD-9"[0] == "IMO"[0];
  }

  function InCodes(m: map<SystemLabel, set<string>>): SystemLabel -> bool
  {
    l => l in m
  }

  /** `sorted(group.all_codes.items())`: the systems present, in label-name order, with their codes. */
  function CodeParts(m: map<SystemLabel, set<string>>): seq<CodePart>
  {
    var present := Filter(LABEL_ORDER, InCodes(m));
    seq(|present|, i requires 0 <= i < |present| => CodePart(present[i], m[present[i]]))
  }

  /** The heading's parts carry the group's codes for their system. */
  lemma CodePartsEntries(m: map<SystemLabel, set<string>>)
    ensures forall i :: 0 <= i < |CodeParts(m)| ==>
      CodeParts(m)[i].system in m && CodeParts(m)[i].codes == m[CodeParts(m)[i].system]
  {
  }

  /** The heading lists every code system of the group. */
  lemma CodePartsComplete(m: map<SystemLabel, set<string>>)
    requires TextLabel !in m
    ensures forall l :: l in m ==> exists i :: 0 <= i < |CodeParts(m)| && CodeParts(m)[i].system == l
  {
    var present := Filter(LABEL_ORDER, InCodes(m));
    forall l | l in m ensures exists i :: 0 <= i < |CodeParts(m)| && CodeParts(m)[i].system == l {
      assert l == Icd10 || l == Icd9 || l == Imo || l == Snomed;
      assert LABEL_ORDER[LabelRank(l)] == l;
      assert InCodes(m)(l);
      var i :| 0 <= i < |present| && present[i] == l;
      assert CodeParts(m)[i].system == l;
    }
  }

  /** The heading lists the code systems once each, in the order of their names. */
  lemma CodePartsOrdered(m: map<SystemLabel, set<string>>)
    ensures forall i, j :: 0 <= i < j < |CodeParts(m)| ==>
      LexLess(LabelName(CodeParts(m)[i].system), LabelName(CodeParts(m)[j].system))
  {
    var present := Filter(LABEL_ORDER, InCodes(m));
    FilterKeepsIncreasing(LABEL_ORDER, InCodes(m), LabelRank);
    forall i, j | 0 <= i < j < |CodeParts(m)|
      ensures LexLess(LabelName(CodeParts(m)[i].system), LabelName(CodeParts(m)[j].system))
    {
      assert present[i] in LABEL_ORDER && present[j] in LABEL_ORDER;
      RankOrdersNames(present[i], present[j]);
    }
  }

  /** A flag worth a warning: high or medium severity. */
  predicate IsNotable(f: string)
  {
    SeverityOf(f) == Some(High) || SeverityOf(f) == Some(Medium)
  }

  /** `format_group_for_llm`, as the values it renders. */
  function FormatGroup(g: ConditionGroup): (s: GroupSummary)
    ensures s.dates.Span? ==> s.dates.first != s.dates.last
  {
    GroupSummary(
      g.displayName,
      CodeParts(g.allCodes),
      g.statuses,
      g.encounterCount,
      if g.earliestOnset.None? then NoDates
      else if g.latestOnset.Some? && g.latestOnset != g.earliestOnset then Span(g.earliestOnset.value, g.latestOnset.value)
      else OnDay(g.earliestOnset.value),
      g.hasOverlappingDates,
      if g.consolidatedRecordCount > 0 then Some(Consolidation(g.consolidatedRecordCount, g.derivedFromSourceCount)) else None,
      set f | f in g.qualityFlags && IsNotable(f) :: QUALITY_FLAG_METADATA[f].description)
  }

  /**
   * The date part of a group's summary: no dates exactly when no member has an
   * onset; a single day that is every member's onset day; or the first and
   * last onset days, first before last, spanning every member's onset day.
   */
  lemma SummaryDates(ms: seq<ConditionRecord>)
    requires ms != []
    ensures var s := FormatGroup(Finish(ms));
      && (s.dates == NoDates <==> forall r :: r in ms ==> !HasOnset(r))
      && (s.dates.OnDay? ==> forall r :: r in ms && HasOnset(r) ==> OnsetDay(r.onsetStart.value) == s.dates.day)
      && (s.dates.Span? ==>
            && s.dates.first < s.dates.last
            && forall r :: r in ms && HasOnset(r) ==> s.dates.first <= OnsetDay(r.onsetStart.value) <= s.dates.last)
  {
    AggregateHasOnset(ms);
    AggregateOnsetBounds(ms);
    var g := Aggregate(ms);
    if g.earliestOnset.Some? {
      AggregateEarliestAttained(ms);
      var r :| r in ms && HasOnset(r) && OnsetDay(r.onsetStart.value) == g.earliestOnset.value;
    }
  }

  /**
   * The notes of a group's summary: the encounter count is the number of
   * members, the consolidation note appears exactly when a member was
   * consolidated, the overlap note exactly when the periods overlap, and every
   * high- or medium-severity flag of a member shows its description.
   */
  lemma SummaryNotes(ms: seq<ConditionRecord>)
    requires ms != []
    ensures var s := FormatGroup(Finish(ms));
      && s.encounterCount == |ms|
      && s.displayName == ms[0].displayName
      && (s.consolidation.Some? <==> exists r :: r in ms && IsConsolidated(r))
      && (s.overlapNote <==> OverlapFlag(Periods(ms)))
      && (forall r, f :: r in ms && f in r.qualityFlags && IsNotable(f) ==> QUALITY_FLAG_METADATA[f].description in s.warnings)
      && (forall d :: d in s.warnings ==> exists r, f :: r in ms && f in r.qualityFlags && IsNotable(f) && d == QUALITY_FLAG_METADATA[f].description)
  {
    SummaryCounts(ms);
    SummaryWarnings(ms);
  }

  /** The counting notes of a group's summary. */
  lemma SummaryCounts(ms: seq<ConditionRecord>)
    requires ms != []
    ensures var s := FormatGroup(Finish(ms));
      && s.encounterCount == |ms|
      && s.displayName == ms[0].displayName
      && (s.consolidation.Some? <==> exists r :: r in ms && IsConsolidated(r))
      && (s.overlapNote <==> OverlapFlag(Periods(ms)))
  {
    FinishCounts(ms);
    SomeConsolidated(ms);
  }

  /** The counts a finished group carries. */
  lemma FinishCounts(ms: seq<ConditionRecord>)
    requires ms != []
    ensures var g := Finish(ms);
      && g.encounterCount == |ms|
      && g.displayName == ms[0].displayName
      && g.consolidatedRecordCount == |Filter(ms, IsConsolidated)|
      && g.hasOverlappingDates == OverlapFlag(Periods(ms))
  {
    AggregateCounts(ms);
  }

  /** Some member is consolidated exactly when the consolidated members are not none. */
  lemma SomeConsolidated(ms: seq<ConditionRecord>)
    ensures |Filter(ms, IsConsolidated)| > 0 <==> exists r :: r in ms && IsConsolidated(r)
  {
    FilterMembers(ms, IsConsolidated);
    var f := Filter(ms, IsConsolidated);
    if |f| > 0 {
      assert f[0] in f;
    }
  }

  /** The warnings of a group's summary: the descriptions of its members' notable flags. */
  lemma SummaryWarnings(ms: seq<ConditionRecord>)
    requires ms != []
    ensures var s := FormatGroup(Finish(ms));
      && (forall r, f :: r in ms && f in r.qualityFlags && IsNotable(f) ==> QUALITY_FLAG_METADATA[f].description in s.warnings)
      && (forall d :: d in s.warnings ==> exists r, f :: r in ms && f in r.qualityFlags && IsNotable(f) && d == QUALITY_FLAG_METADATA[f].description)
  {
    AggregateFlags(ms);
  }

  // ---------------------------------------------------------------------------
  // retrieve
  // ---------------------------------------------------------------------------

  /** What `retrieve` answers: the filters it tried, or the header's counts and the summaries shown. */
  datatype RetrievalResult =
    | NoMatches(filters: seq<string>)
    | Found(recordCount: nat, groupCount: nat, showingTop: Option<int>, activeTotal: nat, sections: seq<GroupSummary>)

  /** The filters named when nothing matches, in the order text, code, status. */
  function FiltersUsed(query: Option<string>, code: Option<string>, status: Option<string>): (fs: seq<string>)
    ensures |fs| == (if Truthy(query) then 1 else 0) + (if Truthy(code) then 1 else 0) + (if Truthy(status) then 1 else 0)
    ensures Truthy(query) ==> fs[0] == "text=\"" + query.value + "\""
    ensures Truthy(code) ==> fs[if Truthy(query) then 1 else 0] == "code=" + code.value
    ensures Truthy(status) ==> fs[|fs| - 1] == "status=" + status.value
  {
    (if Truthy(query) then ["text=\"" + query.value + "\""] else [])
    + (if Truthy(code) then ["code=" + code.value] else [])
    + (if Truthy(status) then ["status=" + status.value] else [])
  }

  function Summaries(gs: seq<ConditionGroup>): (ss: seq<GroupSummary>)
    ensures |ss| == |gs|
    ensures forall i :: 0 <= i < |gs| ==> ss[i] == FormatGroup(gs[i])
  {
    seq(|gs|, i requires 0 <= i < |gs| => FormatGroup(gs[i]))
  }

  /** The answer of `retrieve` for the active records, in their storage order. */
  function Answer(active: seq<ConditionRecord>, query: Option<string>, code: Option<string>, codeSystem: Option<string>,
                  status: Option<string>, maxResults: int): RetrievalResult
  {
    var cands := Candidates(active, query, code, codeSystem, status);
    if cands == [] then NoMatches(FiltersUsed(query, code, status))
    else Report(cands, |active|, maxResults)
  }

  /** The header's counts and the first `maxResults` summaries for the matching records. */
  function Report(cands: seq<ConditionRecord>, activeTotal: nat, maxResults: int): RetrievalResult
  {
    var gs := Grouped(cands);
    Found(|cands|, |gs|, if |gs| > maxResults then Some(maxResults) else None, activeTotal,
          Summaries(PySliceTo(gs, maxResults)))
  }

  /**
   * The report counts the matching records and their groups (at least one, at
   * most one per record) and shows the summaries of the first `maxResults`
   * groups by encounter count, with a "showing top" note exactly when groups
   * were cut off.
   */
  lemma ReportMeaning(cands: seq<ConditionRecord>, activeTotal: nat, maxResults: int)
    requires cands != [] && |cands| <= activeTotal
    ensures var res := Report(cands, activeTotal, maxResults);
      && res.Found?
      && res.recordCount == |cands|
      && 0 < res.groupCount <= res.recordCount <= res.activeTotal == activeTotal
      && res.groupCount == |Grouped(cands)|
      && (0 <= maxResults ==> |res.sections| == if maxResults < res.groupCount then maxResults else res.groupCount)
      && (forall i :: 0 <= i < |res.sections| ==> res.sections[i] == FormatGroup(Grouped(cands)[i]))
      && (res.showingTop.Some? <==> res.groupCount > maxResults)
      && (res.showingTop.Some? ==> res.showingTop.value == maxResults)
  {
    GroupedSize(cands);
    SummariesOfFirst(Grouped(cands), maxResults);
  }

  /** The summaries of `gs[:n]` are those of the first groups of `gs`, in order. */
  lemma SummariesOfFirst(gs: seq<ConditionGroup>, n: int)
    ensures 0 <= n ==> |Summaries(PySliceTo(gs, n))| == if n < |gs| then n else |gs|
    ensures forall i :: 0 <= i < |Summaries(PySliceTo(gs, n))| ==> Summaries(PySliceTo(gs, n))[i] == FormatGroup(gs[i])
  {
    var lim := PySliceTo(gs, n);
    assert forall i :: 0 <= i < |lim| ==> lim[i] == gs[i];
  }

  /**
   * What `retrieve` answers: the filters tried exactly when no active record
   * matches; otherwise the number of matching records, of groups (at least one,
   * at most one per record), the active total, and the summaries of the first
   * `maxResults` groups by encounter count, with a "showing top" note exactly
   * when groups were cut off.
   */
  lemma AnswerMeaning(active: seq<ConditionRecord>, query: Option<string>, code: Option<string>, codeSystem: Option<string>,
                      status: Option<string>, maxResults: int)
    ensures var cands := Candidates(active, query, code, codeSystem, status);
      var res := Answer(active, query, code, codeSystem, status, maxResults);
      && (res.NoMatches? <==> cands == [])
      && (res.NoMatches? ==> res.filters == FiltersUsed(query, code, status))
      && (res.Found? ==>
            && res.recordCount == |cands|
            && 0 < res.groupCount <= res.recordCount <= res.activeTotal == |active|
            && res.groupCount == |Grouped(cands)|
            && (0 <= maxResults ==> |res.sections| == if maxResults < res.groupCount then maxResults else res.groupCount)
            && (forall i :: 0 <= i < |res.sections| ==> res.sections[i] == FormatGroup(Grouped(cands)[i]))
            && (res.showingTop.Some? <==> res.groupCount > maxResults)
            && (res.showingTop.Some? ==> res.showingTop.value == maxResults))
  {
    var cands := Candidates(active, query, code, codeSystem, status);
    CandidatesFewer(active, query, code, codeSystem, status);
    if cands != [] {
      ReportMeaning(cands, |active|, maxResults);
    }
  }

  lemma CandidatesFewer(active: seq<ConditionRecord>, query: Option<string>, code: Option<string>,
                        codeSystem: Option<string>, status: Option<string>)
    ensures |Candidates(active, query, code, codeSystem, status)| <= |active|
  {
    var byText := if Truthy(query) then Filter(active, TextFilter(query.value)) else active;
    var byCode := if Truthy(code) then Filter(byText, CodeFilter(code.value, codeSystem)) else byText;
    assert |byCode| <= |byText| <= |active|;
  }

  /** The filtering half of `retrieve`: each given filter narrows the candidates in turn. */
  method FilterActive(active: seq<ConditionRecord>, query: Option<string>, code: Option<string>,
                      codeSystem: Option<string>, status: Option<string>) returns (candidates: seq<ConditionRecord>)
    ensures candidates == Candidates(active, query, code, codeSystem, status)
  {
    candidates := active;
    if Truthy(query) {
      candidates := Filter(candidates, TextFilter(query.value));
    }
    if Truthy(code) {
      candidates := Filter(candidates, CodeFilter(code.value, codeSystem));
    }
    if Truthy(status) {
      candidates := Filter(candidates, StatusFilter(status.value));
    }
  }

  /**
   * `retrieve`: filter the active records, group them, and summarise the first
   * `maxResults` groups.
   */
  method Retrieve(store: ConditionStore, query: Option<string>, code: Option<string>, codeSystem: Option<string>,
                  status: Option<string>, maxResults: int) returns (res: RetrievalResult)
    requires store.Valid()
    ensures res == Answer(store.GetAllActive(), query, code, codeSystem, status, maxResults)
  {
    var active := store.GetAllActive();
    var candidates := FilterActive(active, query, code, codeSystem, status);
    if candidates == [] {
      return NoMatches(FiltersUsed(query, code, status));
    }
    var grouped := GroupByCanonicalCode(candidates);
    var sections := Summaries(PySliceTo(grouped, maxResults));
    var showing := if |grouped| > maxResults then Some(maxResults) else None;
    res := Found(|candidates|, |grouped|, showing, |active|, sections);
  }
}
