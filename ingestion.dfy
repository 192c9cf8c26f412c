/**
 * Ingestion: turning raw Condition resources into normalised records, and
 * loading a batch of them into the store while counting what happened.
 */
module Ingestion {
  import opened Base
  import opened Text
  import opened ConditionModel
  import opened Storage
  import opened Monitoring

  const ADMIN_CODE_INDICATORS: set<string> := {"admin code", "*new member", "prompt authorization"}

  const VAGUE_ENTRY_KEYWORDS: set<string> := {"encounter for", "elective procedure", "initial encounter"}

  const CLINICAL_STATUS_NORMALIZATION: map<string, string> :=
    map["active" := "active", "active (qualifier value)" := "active", "resolved" := "resolved"]

  const DERIVED_FROM_EXTENSION_URL: string := "http://hl7.org/fhir/StructureDefinition/artifact-relatedArtifact"

  const CONDITION_REFERENCE_PREFIX: string := "Condition/"

  /** Seconds in one day: the short-duration threshold. */
  const SECONDS_PER_DAY: int := 86400

  // ---------------------------------------------------------------------------
  // Codes by system.
  // ---------------------------------------------------------------------------

  /** The code sets of one condition: one per known system, plus every code seen. */
  datatype CodeSets = CodeSets(icd10: seq<string>, snomed: seq<string>, icd9: seq<string>, imo: seq<string>, all: seq<string>)

  /** A coding is used only when both its code and its system are non-empty. */
  predicate Usable(c: FhirCoding)
  {
    Truthy(c.code) && Truthy(c.system)
  }

  /** Some usable coding carries code `x` under system `system`. */
  predicate CodedUnder(codings: seq<FhirCoding>, system: string, x: string)
  {
    exists i :: 0 <= i < |codings| && Usable(codings[i]) && codings[i].system.value == system && codings[i].code.value == x
  }

  /** Some usable coding carries code `x`, under any system. */
  predicate Coded(codings: seq<FhirCoding>, x: string)
  {
    exists i :: 0 <= i < |codings| && Usable(codings[i]) && codings[i].code.value == x
  }

  function AddCode(acc: CodeSets, system: string, code: string): CodeSets
  {
    CodeSets(
      if system == ICD10_SYSTEM then AddUnique(acc.icd10, code) else acc.icd10,
      if system == SNOMED_SYSTEM then AddUnique(acc.snomed, code) else acc.snomed,
      if system == ICD9_SYSTEM then AddUnique(acc.icd9, code) else acc.icd9,
      if system == IMO_SYSTEM then AddUnique(acc.imo, code) else acc.imo,
      AddUnique(acc.all, code))
  }

  /** Holds when `s` is duplicate free and lists exactly the codes coded under `system`. */
  ghost predicate ListsCodesUnder(s: seq<string>, codings: seq<FhirCoding>, system: string)
  {
    NoDup(s) && forall x :: x in s <==> CodedUnder(codings, system, x)
  }

  lemma CodedUnderStep(codings: seq<FhirCoding>, system: string, x: string)
    requires codings != []
    ensures var init, last := codings[..|codings| - 1], codings[|codings| - 1];
      (CodedUnder(codings, system, x)
       <==> (CodedUnder(init, system, x) || (Usable(last) && last.system.value == system && last.code.value == x)))
  {
    var init := codings[..|codings| - 1];
    if CodedUnder(codings, system, x) {
      var i :| 0 <= i < |codings| && Usable(codings[i]) && codings[i].system.value == system && codings[i].code.value == x;
      if i < |init| {
        assert init[i] == codings[i];
      }
    }
    if CodedUnder(init, system, x) {
      var i :| 0 <= i < |init| && Usable(init[i]) && init[i].system.value == system && init[i].code.value == x;
      assert codings[i] == init[i];
    }
  }

  lemma CodedStep(codings: seq<FhirCoding>, x: string)
    requires codings != []
    ensures var init, last := codings[..|codings| - 1], codings[|codings| - 1];
      Coded(codings, x) <==> Coded(init, x) || (Usable(last) && last.code.value == x)
  {
    var init := codings[..|codings| - 1];
    if Coded(codings, x) {
      var i :| 0 <= i < |codings| && Usable(codings[i]) && codings[i].code.value == x;
      if i < |init| {
        assert init[i] == codings[i];
      }
    }
    if Coded(init, x) {
      var i :| 0 <= i < |init| && Usable(init[i]) && init[i].code.value == x;
      assert codings[i] == init[i];
    }
  }

  /** One system's set after one more coding: it keeps listing exactly that system's codes. */
  lemma {:induction false} AddCodeKeepsListing(s: seq<string>, codings: seq<FhirCoding>, system: string)
    requires codings != []
    requires ListsCodesUnder(s, codings[..|codings| - 1], system)
    ensures var last := codings[|codings| - 1];
      ListsCodesUnder(if Usable(last) && last.system.value == system then AddUnique(s, last.code.value) else s, codings, system)
  {
    var last := codings[|codings| - 1];
    forall x ensures CodedUnder(codings, system, x)
                     <==> (CodedUnder(codings[..|codings| - 1], system, x) || (Usable(last) && last.system.value == system && last.code.value == x))
    {
      CodedUnderStep(codings, system, x);
    }
  }

  /**
   * The code sets of a list of codings, accumulated coding by coding. Each
   * known system's set holds exactly the codes some usable coding carries
   * under that system, `all` holds exactly the codes of every usable coding
   * (whatever its system), and every set is duplicate free.
   */
  function CodesOf(codings: seq<FhirCoding>): (r: CodeSets)
    ensures ListsCodesUnder(r.icd10, codings, ICD10_SYSTEM)
    ensures ListsCodesUnder(r.snomed, codings, SNOMED_SYSTEM)
    ensures ListsCodesUnder(r.icd9, codings, ICD9_SYSTEM)
    ensures ListsCodesUnder(r.imo, codings, IMO_SYSTEM)
    ensures NoDup(r.all) && forall x :: x in r.all <==> Coded(codings, x)
  {
    if codings == [] then CodeSets([], [], [], [], [])
    else
      var init := codings[..|codings| - 1];
      var last := codings[|codings| - 1];
      var acc := CodesOf(init);
      AddCodeKeepsListing(acc.icd10, codings, ICD10_SYSTEM);
      AddCodeKeepsListing(acc.snomed, codings, SNOMED_SYSTEM);
      AddCodeKeepsListing(acc.icd9, codings, ICD9_SYSTEM);
      AddCodeKeepsListing(acc.imo, codings, IMO_SYSTEM);
      assert forall x :: Coded(codings, x) <==> Coded(init, x) || (Usable(last) && last.code.value == x) by {
        forall x ensures Coded(codings, x) <==> Coded(init, x) || (Usable(last) && last.code.value == x) {
          CodedStep(codings, x);
        }
      }
      if Usable(last) then AddCode(acc, last.system.value, last.code.value) else acc
  }

  /** The codings of the condition's `code`, or none when it has no `code`. */
  function Codings(c: FhirCondition): seq<FhirCoding>
  {
    if c.code.Some? then c.code.value.coding else []
  }

  /** Every code of a known system is also among all codes. */
  lemma SystemCodesAmongAll(codings: seq<FhirCoding>)
    ensures var r := CodesOf(codings);
      && (forall x :: x in r.icd10 ==> x in r.all)
      && (forall x :: x in r.snomed ==> x in r.all)
      && (forall x :: x in r.icd9 ==> x in r.all)
      && (forall x :: x in r.imo ==> x in r.all)
  {
  }

  /** `_extract_codes_by_system`. */
  function ExtractCodesBySystem(c: FhirCondition): (r: CodeSets)
    ensures c.code.None? ==> r == CodeSets([], [], [], [], [])
    ensures forall x :: x in r.icd10 <==> CodedUnder(Codings(c), ICD10_SYSTEM, x)
    ensures forall x :: x in r.all <==> Coded(Codings(c), x)
    ensures forall x :: x in r.icd10 || x in r.snomed || x in r.icd9 || x in r.imo ==> x in r.all
  {
    SystemCodesAmongAll(Codings(c));
    CodesOf(Codings(c))
  }

  // ---------------------------------------------------------------------------
  // Clinical status.
  // ---------------------------------------------------------------------------

  /** The status text, stripped and lower-cased, or "" when there is none. */
  function StatusKey(text: Option<string>): (k: string)
    ensures IsLower(k)
    ensures k == [] || (!IsSpace(k[0]) && !IsSpace(k[|k| - 1]))
  {
    LowerStripClean(if text.Some? then text.value else "");
    Lower(Strip(if text.Some? then text.value else ""))
  }

  /** The words the synonym table and the fallback produce are clean: lower case, no surrounding spaces. */
  lemma StatusWordsClean()
    ensures forall k :: k in CLINICAL_STATUS_NORMALIZATION ==>
      CLINICAL_STATUS_NORMALIZATION[k] == "active" || CLINICAL_STATUS_NORMALIZATION[k] == "resolved"
    ensures IsLower("active") && IsLower("resolved") && IsLower("unknown")
  {
  }

  /** The table lookup with its fallback: `TABLE.get(key, key or "unknown")`. */
  function NormalizeKey(key: string): (r: string)
    ensures key in CLINICAL_STATUS_NORMALIZATION ==> r == CLINICAL_STATUS_NORMALIZATION[key]
    ensures key == "" ==> r == "unknown"
    ensures key !in CLINICAL_STATUS_NORMALIZATION && key != "" ==> r == key
    ensures IsLower(key) && (key == [] || (!IsSpace(key[0]) && !IsSpace(key[|key| - 1]))) ==>
      r != "" && IsLower(r) && !IsSpace(r[0]) && !IsSpace(r[|r| - 1])
  {
    StatusWordsClean();
    if key in CLINICAL_STATUS_NORMALIZATION then CLINICAL_STATUS_NORMALIZATION[key]
    else if key == "" then "unknown"
    else key
  }

  /**
   * `_normalize_clinical_status`: "unknown" without a status; otherwise the
   * synonym table's entry for the cleaned text, the cleaned text itself when
   * the table has no entry, and "unknown" when the cleaned text is empty.
   * The result is never empty, is lower case and has no surrounding spaces.
   */
  function NormalizeClinicalStatus(c: FhirCondition): (r: string)
    ensures c.clinicalStatus.None? ==> r == "unknown"
    ensures c.clinicalStatus.Some? ==> r == NormalizeKey(StatusKey(c.clinicalStatus.value.text))
    ensures r != "" && IsLower(r) && !IsSpace(r[0]) && !IsSpace(r[|r| - 1])
  {
    assert IsLower("unknown");
    if c.clinicalStatus.None? then "unknown"
    else NormalizeKey(StatusKey(c.clinicalStatus.value.text))
  }

  /** The SNOMED qualifier and the letter case are normalised away. */
  lemma QualifiedActiveIsActive()
    ensures NormalizeKey(StatusKey(Some("Active (qualifier value)"))) == "active"
  {
    QualifiedKey();
    assert "active (qualifier value)" in CLINICAL_STATUS_NORMALIZATION;
  }

  lemma QualifiedKey()
    ensures StatusKey(Some("Active (qualifier value)")) == "active (qualifier value)"
  {
    QualifiedStrips();
    LowerQualified();
  }

  lemma QualifiedStrips()
    ensures Strip("Active (qualifier value)") == "Active (qualifier value)"
  {
    var w := "Active (qualifier value)";
    assert w[0] == 'A' && w[|w| - 1] == ')';
    StripKeeps(w);
  }

  lemma LowerQualified()
    ensures Lower("Active (qualifier value)") == "active (qualifier value)"
  {
  }

  /** Surrounding spaces are stripped before the lookup. */
  lemma PaddedResolvedIsResolved()
    ensures NormalizeKey(StatusKey(Some(" Resolved "))) == "resolved"
  {
    PaddedKey();
    assert "resolved" in CLINICAL_STATUS_NORMALIZATION;
  }

  lemma PaddedKey()
    ensures StatusKey(Some(" Resolved ")) == "resolved"
  {
    PaddedStrips();
    ResolvedLowers();
  }

  lemma PaddedStrips()
    ensures Strip(" Resolved ") == "Resolved"
  {
    var w := "Resolved";
    assert w[0] == 'R' && w[|w| - 1] == 'd';
    StripPaddedWord(w);
    assert " Resolved " == [' '] + w + [' '];
  }

  lemma ResolvedLowers()
    ensures Lower("Resolved") == "resolved"
  {
  }

  /** A status the table does not know is kept, lower-cased. */
  lemma UnknownWordIsKept()
    ensures NormalizeKey(StatusKey(Some("Inactive"))) == "inactive"
  {
    InactiveKey();
    assert "inactive" !in CLINICAL_STATUS_NORMALIZATION;
  }

  lemma InactiveKey()
    ensures StatusKey(Some("Inactive")) == "inactive"
  {
    InactiveStrips();
    InactiveLowers();
  }

  lemma InactiveStrips()
    ensures Strip("Inactive") == "Inactive"
  {
    var w := "Inactive";
    assert w[0] == 'I' && w[|w| - 1] == 'e';
    StripKeeps(w);
  }

  lemma InactiveLowers()
    ensures Lower("Inactive") == "inactive"
  {
  }

  /** A blank status text counts as unknown. */
  lemma BlankStatusIsUnknown()
    ensures NormalizeKey(StatusKey(Some("  "))) == "unknown"
    ensures NormalizeKey(StatusKey(None)) == "unknown"
  {
    BlankKey();
  }

  lemma BlankKey()
    ensures StatusKey(Some("  ")) == ""
    ensures StatusKey(None) == ""
  {
    BlankStrips();
    assert Lower("") == "";
    assert Strip("") == "";
  }

  lemma BlankStrips()
    ensures Strip("  ") == ""
  {
    assert "  " == [' '] + " ";
    TrimLeftDropsSpace(' ', " ");
    assert " " == [' '] + "";
    TrimLeftDropsSpace(' ', "");
  }

  // ---------------------------------------------------------------------------
  // Searchable text and display name.
  // ---------------------------------------------------------------------------

  /** The display and code of every coding, each when non-empty, coding by coding. */
  function CodingParts(codings: seq<FhirCoding>): (parts: seq<string>)
    ensures forall k :: 0 <= k < |parts| ==> parts[k] != ""
    ensures forall i :: 0 <= i < |codings| && Truthy(codings[i].display) ==> codings[i].display.value in parts
    ensures forall i :: 0 <= i < |codings| && Truthy(codings[i].code) ==> codings[i].code.value in parts
  {
    if codings == [] then []
    else
      var last := codings[|codings| - 1];
      CodingParts(codings[..|codings| - 1])
        + (if Truthy(last.display) then [last.display.value] else [])
        + (if Truthy(last.code) then [last.code.value] else [])
  }

  /** The parts of the searchable text: the concept text, then each coding's display and code. */
  function SearchParts(c: FhirCondition): seq<string>
  {
    if c.code.None? then []
    else (if Truthy(c.code.value.text) then [c.code.value.text.value] else []) + CodingParts(c.code.value.coding)
  }

  /**
   * `_build_searchable_text`: the parts joined by spaces and lower-cased. It is
   * lower case, contains every part (lower-cased), starts with the concept
   * text when there is one, and is empty when there is nothing to search.
   */
  function BuildSearchableText(c: FhirCondition): (r: string)
    ensures IsLower(r)
    ensures forall p :: p in SearchParts(c) ==> Contains(r, Lower(p))
    ensures c.code.Some? && Truthy(c.code.value.text) ==> StartsWith(r, Lower(c.code.value.text.value))
    ensures SearchParts(c) == [] ==> r == ""
  {
    JoinedTextFacts(SearchParts(c));
    Lower(Join(" ", SearchParts(c)))
  }

  lemma JoinedTextFacts(parts: seq<string>)
    ensures IsLower(Lower(Join(" ", parts)))
    ensures forall p :: p in parts ==> Contains(Lower(Join(" ", parts)), Lower(p))
    ensures |parts| > 0 ==> StartsWith(Lower(Join(" ", parts)), Lower(parts[0]))
  {
    var joined := Join(" ", parts);
    LowerIsLower(joined);
    forall p | p in parts ensures Contains(Lower(joined), Lower(p)) {
      var k :| 0 <= k < |parts| && parts[k] == p;
      JoinContainsPart(" ", parts, k);
      LowerContains(joined, p);
    }
    if |parts| > 0 {
      JoinStartsWithFirst(" ", parts);
      assert Lower(joined)[..|parts[0]|] == Lower(joined[..|parts[0]|]);
    }
  }

  /** Every non-empty display and code of the condition's codings is searchable. */
  lemma CodingsAreSearchable(c: FhirCondition, i: nat)
    requires i < |Codings(c)|
    ensures Truthy(Codings(c)[i].display) ==> Contains(BuildSearchableText(c), Lower(Codings(c)[i].display.value))
    ensures Truthy(Codings(c)[i].code) ==> Contains(BuildSearchableText(c), Lower(Codings(c)[i].code.value))
  {
  }

  /** The first non-empty display among the codings, if any. */
  function FirstDisplay(codings: seq<FhirCoding>): (r: Option<string>)
    decreases |codings|, 1
    ensures r.Some? <==> exists i :: 0 <= i < |codings| && Truthy(codings[i].display)
    ensures r.Some? ==> exists i :: 0 <= i < |codings| && codings[i].display == r && r.value != ""
                          && forall j :: 0 <= j < i ==> !Truthy(codings[j].display)
  {
    if codings == [] then None
    else if Truthy(codings[0].display) then codings[0].display
    else
      FirstDisplayStep(codings);
      FirstDisplay(codings[1..])
  }

  /** The witnesses for the tail's first display shift by one position in the whole list. */
  lemma FirstDisplayStep(codings: seq<FhirCoding>)
    requires codings != [] && !Truthy(codings[0].display)
    decreases |codings|, 0
    ensures (exists i :: 0 <= i < |codings| && Truthy(codings[i].display))
            <==> (exists i :: 0 <= i < |codings[1..]| && Truthy(codings[1..][i].display))
    ensures var rest := FirstDisplay(codings[1..]);
      rest.Some? ==> exists i :: 0 <= i < |codings| && codings[i].display == rest && rest.value != ""
                       && forall j :: 0 <= j < i ==> !Truthy(codings[j].display)
  {
    var tail := codings[1..];
    assert forall i :: 0 < i < |codings| ==> codings[i] == tail[i - 1];
    if exists i :: 0 <= i < |codings| && Truthy(codings[i].display) {
      var i :| 0 <= i < |codings| && Truthy(codings[i].display);
      assert Truthy(tail[i - 1].display);
    }
    var rest := FirstDisplay(tail);
    if rest.Some? {
      var i :| 0 <= i < |tail| && tail[i].display == rest && rest.value != ""
               && forall j :: 0 <= j < i ==> !Truthy(tail[j].display);
      assert codings[i + 1].display == rest;
      forall j | 0 < j < i + 1 ensures !Truthy(codings[j].display) {
        assert codings[j] == tail[j - 1];
      }
    }
  }

  /**
   * `_pick_display_name`: the concept text when non-empty, else the first
   * non-empty coding display, else "Unknown condition". Never empty.
   */
  function PickDisplayName(c: FhirCondition): (r: string)
    ensures c.code.Some? && Truthy(c.code.value.text) ==> r == c.code.value.text.value
    ensures !(c.code.Some? && Truthy(c.code.value.text)) && FirstDisplay(Codings(c)).Some? ==>
              r == FirstDisplay(Codings(c)).value
    ensures (!(c.code.Some? && Truthy(c.code.value.text))
             && !(exists i :: 0 <= i < |Codings(c)| && Truthy(Codings(c)[i].display))) ==> r == "Unknown condition"
    ensures r != ""
  {
    if c.code.Some? && Truthy(c.code.value.text) then c.code.value.text.value
    else
      var d := FirstDisplay(Codings(c));
      if d.Some? then d.value else "Unknown condition"
  }

  // ---------------------------------------------------------------------------
  // Onset period.
  // ---------------------------------------------------------------------------

  /** One timestamp field: parsed when present and non-empty, `None` when absent or unparseable. */
  function ParseInstant(s: Option<string>, parse: string -> Option<int>): (t: Option<int>)
    ensures !Truthy(s) ==> t.None?
    ensures Truthy(s) ==> t == parse(s.value)
  {
    if Truthy(s) then parse(s.value) else None
  }

  /** `_parse_onset_dates`: start and end parsed independently; neither without an onset period. */
  function ParseOnsetDates(c: FhirCondition, parse: string -> Option<int>): (r: (Option<int>, Option<int>))
    ensures c.onsetPeriod.None? ==> r == (None, None)
    ensures c.onsetPeriod.Some? ==> r.0 == ParseInstant(c.onsetPeriod.value.start, parse)
                                    && r.1 == ParseInstant(c.onsetPeriod.value.end, parse)
  {
    if c.onsetPeriod.None? then (None, None)
    else (ParseInstant(c.onsetPeriod.value.start, parse), ParseInstant(c.onsetPeriod.value.end, parse))
  }

  // ---------------------------------------------------------------------------
  // Quality flags.
  // ---------------------------------------------------------------------------

  /** The position of a flag in the emission order. */
  function FlagRank(f: string): int
  {
    if f == MISSING_CLINICAL_STATUS then 0
    else if f == INCONSISTENT_STATUS then 1
    else if f == ADMIN_CODE then 2
    else if f == VAGUE_ENTRY then 3
    else if f == SHORT_DURATION then 4
    else if f == MISSING_ICD10 then 5
    else 6
  }

  function When(b: bool, f: string): seq<string>
  {
    if b then [f] else []
  }

  predicate StatusInconsistent(status: string, end: Option<int>)
  {
    (status == "active" && end.Some?) || (status == "resolved" && end.None?)
  }

  predicate HasAdminIndicator(text: string)
  {
    Contains(text, "admin code") || Contains(text, "*new member") || Contains(text, "prompt authorization")
  }

  predicate HasVagueKeyword(text: string)
  {
    Contains(text, "encounter for") || Contains(text, "elective procedure") || Contains(text, "initial encounter")
  }

  predicate IsShort(start: Option<int>, end: Option<int>)
  {
    start.Some? && end.Some? && 0 < end.value - start.value < SECONDS_PER_DAY
  }

  /** Flag `f` is one whose rule fired. */
  predicate Fired(f: string, b0: bool, b1: bool, b2: bool, b3: bool, b4: bool, b5: bool)
  {
    (f == MISSING_CLINICAL_STATUS && b0) || (f == INCONSISTENT_STATUS && b1) || (f == ADMIN_CODE && b2)
    || (f == VAGUE_ENTRY && b3) || (f == SHORT_DURATION && b4) || (f == MISSING_ICD10 && b5)
  }

  /** The flags whose rules fired, in emission order. */
  function FlagList(b0: bool, b1: bool, b2: bool, b3: bool, b4: bool, b5: bool): seq<string>
  {
    Filter(FLAG_ORDER, (f: string) => Fired(f, b0, b1, b2, b3, b4, b5))
  }

  /** A flag is in the list exactly when its rule fired. */
  lemma FlagListMembers(b0: bool, b1: bool, b2: bool, b3: bool, b4: bool, b5: bool)
    ensures forall g :: g in FlagList(b0, b1, b2, b3, b4, b5) <==> Fired(g, b0, b1, b2, b3, b4, b5)
  {
    var p := (f: string) => Fired(f, b0, b1, b2, b3, b4, b5);
    var r := Filter(FLAG_ORDER, p);
    forall g ensures g in r <==> p(g) {
      if g in r {
        var k :| 0 <= k < |r| && r[k] == g;
      }
      if p(g) {
        assert g in FLAG_ORDER;
        var i :| 0 <= i < |FLAG_ORDER| && FLAG_ORDER[i] == g;
      }
    }
  }

  /** Each flag fires under its own rule only. */
  lemma FiredExactly(b0: bool, b1: bool, b2: bool, b3: bool, b4: bool, b5: bool)
    ensures Fired(MISSING_CLINICAL_STATUS, b0, b1, b2, b3, b4, b5) <==> b0
    ensures Fired(INCONSISTENT_STATUS, b0, b1, b2, b3, b4, b5) <==> b1
    ensures Fired(ADMIN_CODE, b0, b1, b2, b3, b4, b5) <==> b2
    ensures Fired(VAGUE_ENTRY, b0, b1, b2, b3, b4, b5) <==> b3
    ensures Fired(SHORT_DURATION, b0, b1, b2, b3, b4, b5) <==> b4
    ensures Fired(MISSING_ICD10, b0, b1, b2, b3, b4, b5) <==> b5
    ensures forall g :: Fired(g, b0, b1, b2, b3, b4, b5) ==> g in QUALITY_FLAG_METADATA
  {
    FlagNamesDistinct();
  }

  /** The six flag names differ (already in length). */
  lemma FlagNamesDistinct()
    ensures |MISSING_CLINICAL_STATUS| == 23 && |INCONSISTENT_STATUS| == 19 && |ADMIN_CODE| == 10
    ensures |VAGUE_ENTRY| == 11 && |SHORT_DURATION| == 14 && |MISSING_ICD10| == 13
  {
  }

  /** Emission rank is strictly increasing along the emission order. */
  lemma RankAlongOrder()
    ensures forall i, j :: 0 <= i < j < |FLAG_ORDER| ==> FlagRank(FLAG_ORDER[i]) < FlagRank(FLAG_ORDER[j])
  {
    assert forall i :: 0 <= i < |FLAG_ORDER| ==> FlagRank(FLAG_ORDER[i]) == i;
  }

  /** The list is strictly ordered by emission rank, hence duplicate free. */
  lemma FlagListOrdered(b0: bool, b1: bool, b2: bool, b3: bool, b4: bool, b5: bool)
    ensures var r := FlagList(b0, b1, b2, b3, b4, b5);
      && (forall i, j :: 0 <= i < j < |r| ==> FlagRank(r[i]) < FlagRank(r[j]))
      && NoDup(r)
  {
    RankAlongOrder();
    FilterKeepsIncreasing(FLAG_ORDER, (f: string) => Fired(f, b0, b1, b2, b3, b4, b5), FlagRank);
  }

  lemma AdminIndicatorsAsSet(text: string)
    ensures HasAdminIndicator(text) <==> exists p :: p in ADMIN_CODE_INDICATORS && Contains(text, p)
  {
    assert forall p :: p in ADMIN_CODE_INDICATORS <==> p == "admin code" || p == "*new member" || p == "prompt authorization";
  }

  lemma VagueKeywordsAsSet(text: string)
    ensures HasVagueKeyword(text) <==> exists p :: p in VAGUE_ENTRY_KEYWORDS && Contains(text, p)
  {
    assert forall p :: p in VAGUE_ENTRY_KEYWORDS <==> p == "encounter for" || p == "elective procedure" || p == "initial encounter";
  }

  /**
   * `_detect_quality_flags`. Each flag is raised exactly under its rule:
   * no clinical status; active with an end date or resolved without one; an
   * admin indicator or a vague keyword in the searchable text; both instants
   * known and less than one day apart (and the end after the start); no
   * ICD-10 code. The flags come in the fixed emission order, hence without
   * duplicates, and each has a metadata entry.
   */
  function DetectQualityFlags(c: FhirCondition, codes: CodeSets, status: string, start: Option<int>, end: Option<int>): (r: seq<string>)
    ensures MISSING_CLINICAL_STATUS in r <==> c.clinicalStatus.None?
    ensures INCONSISTENT_STATUS in r <==> StatusInconsistent(status, end)
    ensures ADMIN_CODE in r <==> exists p :: p in ADMIN_CODE_INDICATORS && Contains(BuildSearchableText(c), p)
    ensures VAGUE_ENTRY in r <==> exists p :: p in VAGUE_ENTRY_KEYWORDS && Contains(BuildSearchableText(c), p)
    ensures SHORT_DURATION in r <==> IsShort(start, end)
    ensures MISSING_ICD10 in r <==> codes.icd10 == []
    ensures forall f :: f in r ==> f in QUALITY_FLAG_METADATA
    ensures forall i, j :: 0 <= i < j < |r| ==> FlagRank(r[i]) < FlagRank(r[j])
    ensures NoDup(r)
  {
    var text := BuildSearchableText(c);
    var b0, b1, b2 := c.clinicalStatus.None?, StatusInconsistent(status, end), HasAdminIndicator(text);
    var b3, b4, b5 := HasVagueKeyword(text), IsShort(start, end), codes.icd10 == [];
    FlagListMembers(b0, b1, b2, b3, b4, b5);
    FiredExactly(b0, b1, b2, b3, b4, b5);
    FlagListOrdered(b0, b1, b2, b3, b4, b5);
    AdminIndicatorsAsSet(text);
    VagueKeywordsAsSet(text);
    FlagList(b0, b1, b2, b3, b4, b5)
  }

  // ---------------------------------------------------------------------------
  // Derived-from links.
  // ---------------------------------------------------------------------------

  /**
   * An extension that links to the condition it was derived from: the
   * related-artifact URL, an artifact of type "derived-from" with a non-empty
   * display that is a `Condition/<id>` reference.
   */
  predicate IsDerivedFromLink(e: FhirExtension)
  {
    && e.url == Some(DERIVED_FROM_EXTENSION_URL)
    && e.valueRelatedArtifact.Some?
    && e.valueRelatedArtifact.value.kind == Some("derived-from")
    && Truthy(e.valueRelatedArtifact.value.display)
    && StartsWith(e.valueRelatedArtifact.value.display.value, CONDITION_REFERENCE_PREFIX)
  }

  /** The reference a link extension carries. */
  function LinkReference(e: FhirExtension): string
    requires IsDerivedFromLink(e)
  {
    e.valueRelatedArtifact.value.display.value
  }

  /**
   * `_extract_derived_from_ids`: one id per link extension, in extension
   * order; the k-th id is the k-th link's reference with the `Condition/`
   * prefix removed.
   */
  function ExtractDerivedFromIds(exts: seq<FhirExtension>): (ids: seq<string>)
    ensures |ids| == |Filter(exts, IsDerivedFromLink)| <= |exts|
    ensures forall k :: 0 <= k < |ids| ==> CONDITION_REFERENCE_PREFIX + ids[k] == LinkReference(Filter(exts, IsDerivedFromLink)[k])
  {
    if exts == [] then []
    else
      var init := ExtractDerivedFromIds(exts[..|exts| - 1]);
      var last := exts[|exts| - 1];
      if IsDerivedFromLink(last) then
        var ref := LinkReference(last);
        assert CONDITION_REFERENCE_PREFIX + ref[|CONDITION_REFERENCE_PREFIX|..] == ref;
        init + [ref[|CONDITION_REFERENCE_PREFIX|..]]
      else init
  }

  /** Extracting from a concatenation of extension lists extracts from each part in turn. */
  lemma {:induction false} DerivedFromIdsAppend(a: seq<FhirExtension>, b: seq<FhirExtension>)
    ensures ExtractDerivedFromIds(a + b) == ExtractDerivedFromIds(a) + ExtractDerivedFromIds(b)
  {
    if b != [] {
      var init := b[..|b| - 1];
      DerivedFromIdsAppend(a, init);
      assert (a + b)[..|a + b| - 1] == a + init;
      assert (a + b)[|a + b| - 1] == b[|b| - 1];
    } else {
      assert a + b == a;
    }
  }

  /** A link to `Condition/abc` yields the id "abc"; any other extension yields nothing. */
  lemma DerivedFromIdsExample(other: FhirExtension)
    requires !IsDerivedFromLink(other)
    ensures ExtractDerivedFromIds([other]) == []
    ensures ExtractDerivedFromIds(
      [FhirExtension(Some(DERIVED_FROM_EXTENSION_URL), Some(FhirRelatedArtifact(Some("derived-from"), Some("Condition/abc"))))])
      == ["abc"]
  {
    var e := FhirExtension(Some(DERIVED_FROM_EXTENSION_URL), Some(FhirRelatedArtifact(Some("derived-from"), Some("Condition/abc"))));
    assert [e][..0] == [];
    assert [other][..0] == [];
    assert StartsWith("Condition/abc", CONDITION_REFERENCE_PREFIX);
    assert "Condition/abc"[|CONDITION_REFERENCE_PREFIX|..] == "abc";
  }

  // ---------------------------------------------------------------------------
  // Building one record.
  // ---------------------------------------------------------------------------

  /**
   * `build_condition_record`: validation fails exactly when the id is
   * missing; otherwise the record carries the validated condition under its
   * id, is well formed, active and tagged with the batch number, and each
   * derived field is its helper's result.
   */
  function BuildConditionRecord(raw: RawCondition, batchNumber: int, parse: string -> Option<int>): (r: Result<ConditionRecord>)
    ensures r.Ok? <==> raw.id.Some?
    ensures r.Ok? ==> (
      var c := Validate(raw).value;
      && r.value.resourceId == raw.id.value && r.value.fhirCondition == c
      && WellFormed(r.value) && !r.value.isRemoved && r.value.ingestionBatch == Some(batchNumber))
    ensures r.Ok? ==> (
      var c := Validate(raw).value;
      var codes := ExtractCodesBySystem(c);
      && r.value.icd10Codes == codes.icd10 && r.value.snomedCodes == codes.snomed
      && r.value.icd9Codes == codes.icd9 && r.value.imoCodes == codes.imo && r.value.allCodes == codes.all
      && r.value.normalizedStatus == NormalizeClinicalStatus(c)
      && r.value.searchableText == BuildSearchableText(c)
      && r.value.displayName == PickDisplayName(c)
      && (r.value.onsetStart, r.value.onsetEnd) == ParseOnsetDates(c, parse)
      && r.value.qualityFlags == DetectQualityFlags(c, codes, r.value.normalizedStatus, r.value.onsetStart, r.value.onsetEnd)
      && r.value.derivedFromIds == ExtractDerivedFromIds(c.extension))
  {
    match Validate(raw)
    case Err(msg) => Err(msg)
    case Ok(c) =>
      var codes := ExtractCodesBySystem(c);
      SystemCodesAmongAll(Codings(c));
      var onset := ParseOnsetDates(c, parse);
      var status := NormalizeClinicalStatus(c);
      Ok(ConditionRecord(
        c.id, c, codes.icd10, codes.snomed, codes.icd9, codes.imo, codes.all, status,
        BuildSearchableText(c), PickDisplayName(c), onset.0, onset.1,
        DetectQualityFlags(c, codes, status, onset.0, onset.1),
        ExtractDerivedFromIds(c.extension), false, None, None, Some(batchNumber)))
  }

  /**
   * The flags of a built record agree with the record's own fields: the
   * status rule reads its status and end, the text rules its searchable
   * text, the duration rule its instants and the ICD-10 rule its codes.
   */
  lemma RecordFlagsAgreeWithFields(raw: RawCondition, batchNumber: int, parse: string -> Option<int>)
    requires raw.id.Some?
    ensures var r := BuildConditionRecord(raw, batchNumber, parse).value;
      && (MISSING_CLINICAL_STATUS in r.qualityFlags <==> r.fhirCondition.clinicalStatus.None?)
      && (INCONSISTENT_STATUS in r.qualityFlags <==> StatusInconsistent(r.normalizedStatus, r.onsetEnd))
      && (ADMIN_CODE in r.qualityFlags <==> exists p :: p in ADMIN_CODE_INDICATORS && Contains(r.searchableText, p))
      && (VAGUE_ENTRY in r.qualityFlags <==> exists p :: p in VAGUE_ENTRY_KEYWORDS && Contains(r.searchableText, p))
      && (SHORT_DURATION in r.qualityFlags <==> IsShort(r.onsetStart, r.onsetEnd))
      && (MISSING_ICD10 in r.qualityFlags <==> r.icd10Codes == [])
      && (MISSING_ICD10 in r.qualityFlags <==> !exists x :: CodedUnder(Codings(r.fhirCondition), ICD10_SYSTEM, x))
  {
    var r := BuildConditionRecord(raw, batchNumber, parse).value;
    var codes := ExtractCodesBySystem(r.fhirCondition);
    if codes.icd10 != [] {
      assert codes.icd10[0] in codes.icd10;
    }
  }

  /** A condition with nothing but an id is named "Unknown condition", has no codes, no text and an unknown status. */
  lemma BareConditionRecord(id: string, batchNumber: int, parse: string -> Option<int>)
    ensures var r := BuildConditionRecord(RawCondition(None, Some(id), [], None, None, None, [], None, None, []), batchNumber, parse);
      && r.Ok?
      && r.value.normalizedStatus == "unknown"
      && r.value.displayName == "Unknown condition"
      && r.value.allCodes == [] && r.value.searchableText == ""
      && r.value.fhirCondition.resourceType == "Condition"
  {
    var c := Validate(RawCondition(None, Some(id), [], None, None, None, [], None, None, [])).value;
    assert SearchParts(c) == [];
  }

  /** Such a condition carries exactly two flags: the missing status and the missing ICD-10 code. */
  lemma BareConditionFlags(id: string, batchNumber: int, parse: string -> Option<int>)
    ensures var r := BuildConditionRecord(RawCondition(None, Some(id), [], None, None, None, [], None, None, []), batchNumber, parse);
      r.Ok? && forall f :: f in r.value.qualityFlags <==> f == MISSING_CLINICAL_STATUS || f == MISSING_ICD10
  {
    var raw := RawCondition(None, Some(id), [], None, None, None, [], None, None, []);
    BareConditionRecord(id, batchNumber, parse);
    var r := BuildConditionRecord(raw, batchNumber, parse).value;
    assert r.onsetStart.None? && r.onsetEnd.None?;
    assert !HasAdminIndicator("") && !HasVagueKeyword("");
    assert r.qualityFlags == FlagList(true, false, false, false, false, true);
    FlagListMembers(true, false, false, false, false, true);
  }

  // ---------------------------------------------------------------------------
  // Loading a batch.
  // ---------------------------------------------------------------------------

  /** What a batch run does, record by record: the records added, and the duplicate and error counts. */
  datatype Tally = Tally(added: seq<ConditionRecord>, duplicates: nat, errors: nat)

  predicate LacksId(raw: RawCondition)
  {
    raw.id.None?
  }

  /**
   * The reference run of `ingest_batch` over `raws` against a store already
   * holding the ids `existing`: an input without an id is an error; one whose
   * id is already stored, or was added earlier in the run, is a duplicate;
   * every other input is added. Inputs are accounted for exactly once, the
   * errors are exactly the inputs without an id, and the added records have
   * fresh, distinct ids.
   */
  function IngestTally(raws: seq<RawCondition>, batchNumber: int, parse: string -> Option<int>, existing: set<string>): (t: Tally)
    ensures |t.added| + t.duplicates + t.errors == |raws|
  {
    if raws == [] then Tally([], 0, 0)
    else TallyNext(IngestTally(raws[..|raws| - 1], batchNumber, parse, existing),
                   BuildConditionRecord(raws[|raws| - 1], batchNumber, parse), existing)
  }

  /** The errors of a run are exactly its inputs without an id. */
  lemma {:induction false} IngestTallyErrors(raws: seq<RawCondition>, batchNumber: int, parse: string -> Option<int>, existing: set<string>)
    ensures IngestTally(raws, batchNumber, parse, existing).errors == |Filter(raws, LacksId)|
  {
    if raws != [] {
      IngestTallyErrors(raws[..|raws| - 1], batchNumber, parse, existing);
    }
  }

  /** A run adds only well-formed, active records of this batch, with ids new to the store and distinct. */
  lemma {:induction false} IngestTallyAddsFresh(raws: seq<RawCondition>, batchNumber: int, parse: string -> Option<int>, existing: set<string>)
    ensures TallyOk(IngestTally(raws, batchNumber, parse, existing), batchNumber, existing)
  {
    if raws != [] {
      IngestTallyAddsFresh(raws[..|raws| - 1], batchNumber, parse, existing);
      TallyNextKeeps(IngestTally(raws[..|raws| - 1], batchNumber, parse, existing),
                     BuildConditionRecord(raws[|raws| - 1], batchNumber, parse), batchNumber, existing);
    }
  }

  /** The added records have fresh, distinct ids and are well formed, active and tagged with the batch. */
  ghost predicate TallyOk(t: Tally, batchNumber: int, existing: set<string>)
  {
    && NoDup(Ids(t.added))
    && forall r :: r in t.added ==>
         (r.resourceId !in existing && WellFormed(r) && !r.isRemoved && r.ingestionBatch == Some(batchNumber))
  }

  /** One more input: an error, a duplicate of a stored or already added id, or a new record. */
  function TallyNext(t: Tally, built: Result<ConditionRecord>, existing: set<string>): Tally
  {
    match built
    case Err(_) => t.(errors := t.errors + 1)
    case Ok(r) =>
      if r.resourceId in existing || r.resourceId in Ids(t.added) then t.(duplicates := t.duplicates + 1)
      else t.(added := t.added + [r])
  }

  lemma TallyNextKeeps(t: Tally, built: Result<ConditionRecord>, batchNumber: int, existing: set<string>)
    requires TallyOk(t, batchNumber, existing)
    requires built.Ok? ==> WellFormed(built.value) && !built.value.isRemoved && built.value.ingestionBatch == Some(batchNumber)
    ensures var n := TallyNext(t, built, existing);
      && TallyOk(n, batchNumber, existing)
      && |n.added| + n.duplicates + n.errors == |t.added| + t.duplicates + t.errors + 1
      && n.errors == t.errors + (if built.Err? then 1 else 0)
  {
    if built.Ok? {
      IdsAppend(t.added, built.value);
    }
  }

  lemma IngestTallyStep(raws: seq<RawCondition>, i: nat, batchNumber: int, parse: string -> Option<int>, existing: set<string>)
    requires i < |raws|
    ensures IngestTally(raws[..i + 1], batchNumber, parse, existing)
            == TallyNext(IngestTally(raws[..i], batchNumber, parse, existing), BuildConditionRecord(raws[i], batchNumber, parse), existing)
  {
    assert raws[..i + 1][..i] == raws[..i];
  }

  /**
   * Counting the flags of one added record: each of its flags gains one,
   * every other count is unchanged, and no count is zero.
   */
  method CountFlags(counts: map<string, nat>, flags: seq<string>) returns (counts': map<string, nat>)
    requires NoDup(flags)
    requires forall f :: f in counts ==> counts[f] > 0
    ensures forall f :: Get(counts', f) == Get(counts, f) + (if f in flags then 1 else 0)
    ensures forall f :: f in counts' ==> counts'[f] > 0
  {
    counts' := counts;
    var j := 0;
    while j < |flags|
      invariant 0 <= j <= |flags|
      invariant forall f :: Get(counts', f) == Get(counts, f) + Occurrences(flags[..j], f)
      invariant forall f :: f in counts' ==> counts'[f] > 0
    {
      assert flags[..j + 1][..j] == flags[..j];
      counts' := counts'[flags[j] := Get(counts', flags[j]) + 1];
      j := j + 1;
    }
    assert flags[..j] == flags;
    forall f ensures Occurrences(flags, f) == if f in flags then 1 else 0 {
      OccurrencesNoDup(flags, f);
    }
  }

  /** The flag counts of the records `added` so far, updated for one more added record. */
  method CountRecordFlags(counts: map<string, nat>, record: ConditionRecord, ghost added: seq<ConditionRecord>)
    returns (counts': map<string, nat>)
    requires NoDup(record.qualityFlags)
    requires forall f :: Get(counts, f) == CountCarrying(added, f)
    requires forall f :: f in counts ==> counts[f] > 0
    ensures forall f :: Get(counts', f) == CountCarrying(added + [record], f)
    ensures forall f :: f in counts' ==> counts'[f] > 0
  {
    counts' := CountFlags(counts, record.qualityFlags);
    CountCarryingStep(added, record);
  }

  /** The number of records carrying flag `f`. */
  function CountCarrying(rs: seq<ConditionRecord>, f: string): nat
  {
    if rs == [] then 0
    else CountCarrying(rs[..|rs| - 1], f) + (if f in rs[|rs| - 1].qualityFlags then 1 else 0)
  }

  lemma CountCarryingAppend(rs: seq<ConditionRecord>, r: ConditionRecord, f: string)
    ensures CountCarrying(rs + [r], f) == CountCarrying(rs, f) + (if f in r.qualityFlags then 1 else 0)
  {
    assert (rs + [r])[..|rs|] == rs;
  }

  lemma CountCarryingStep(rs: seq<ConditionRecord>, r: ConditionRecord)
    ensures forall f :: CountCarrying(rs + [r], f) == CountCarrying(rs, f) + (if f in r.qualityFlags then 1 else 0)
  {
    forall f ensures CountCarrying(rs + [r], f) == CountCarrying(rs, f) + (if f in r.qualityFlags then 1 else 0) {
      CountCarryingAppend(rs, r, f);
    }
  }

  /** The number of occurrences of `f` in `s`. */
  function Occurrences(s: seq<string>, f: string): nat
  {
    if s == [] then 0 else Occurrences(s[..|s| - 1], f) + (if s[|s| - 1] == f then 1 else 0)
  }

  /** In a duplicate-free sequence a value occurs once or not at all. */
  lemma {:induction false} OccurrencesNoDup(s: seq<string>, f: string)
    requires NoDup(s)
    ensures Occurrences(s, f) == if f in s then 1 else 0
  {
    if s != [] {
      var init := s[..|s| - 1];
      OccurrencesNoDup(init, f);
      if s[|s| - 1] == f {
        assert f !in init by {
          forall i | 0 <= i < |init| ensures init[i] != f {
            assert init[i] == s[i];
          }
        }
      } else {
        assert f in s <==> f in init by {
          assert s == init + [s[|s| - 1]];
        }
      }
    }
  }

  /** What happened to one input. */
  datatype Outcome = Errored | Duplicate | Added

  /** The outcome of one input in the reference run. */
  function OutcomeOf(t: Tally, built: Result<ConditionRecord>, existing: set<string>): Outcome
  {
    if built.Err? then Errored
    else if built.value.resourceId in existing || built.value.resourceId in Ids(t.added) then Duplicate
    else Added
  }

  /**
   * A failed build is an error; a record is added exactly when its id is new
   * to the store and to the run; and each outcome moves exactly its own counter.
   */
  lemma OutcomeMeaning(t: Tally, built: Result<ConditionRecord>, existing: set<string>)
    ensures var o := OutcomeOf(t, built, existing); var n := TallyNext(t, built, existing);
      && (o == Errored <==> built.Err?)
      && (o == Added <==> built.Ok? && built.value.resourceId !in existing && built.value.resourceId !in Ids(t.added))
      && (o == Errored ==> n == t.(errors := t.errors + 1))
      && (o == Duplicate ==> n == t.(duplicates := t.duplicates + 1))
      && (o == Added ==> n == t.(added := t.added + [built.value]))
  {
  }

  /** Removal monotonicity composes. */
  lemma RemovalMonotoneTrans(a: map<string, ConditionRecord>, b: map<string, ConditionRecord>, c: map<string, ConditionRecord>)
    requires RemovalMonotone(a, b) && RemovalMonotone(b, c)
    ensures RemovalMonotone(a, c)
  {
  }

  /** The store holds what it held before, followed by the records `added`, in order. */
  ghost predicate Loaded(store: ConditionStore, baseOrder: seq<string>, initial: seq<ConditionRecord>, added: seq<ConditionRecord>)
    reads store
  {
    store.Valid() && store.order == baseOrder + Ids(added) && store.Iterate() == initial + added
  }

  /**
   * One input reaches the store: a failed build is an error, a record whose
   * id the store holds is a duplicate and leaves the store as it was, and
   * any other record is added after the ones before it.
   */
  method StoreOne(built: Result<ConditionRecord>, store: ConditionStore,
                  ghost t: Tally, ghost existing: set<string>, ghost baseOrder: seq<string>, ghost initial: seq<ConditionRecord>)
    returns (outcome: Outcome)
    requires forall id :: id in baseOrder <==> id in existing
    requires Loaded(store, baseOrder, initial, t.added)
    modifies store
    ensures Loaded(store, baseOrder, initial, TallyNext(t, built, existing).added)
    ensures outcome == OutcomeOf(t, built, existing)
    ensures RemovalMonotone(old(store.records), store.records)
  {
    if built.Err? {
      return Errored;
    }
    var record := built.value;
    assert record.resourceId in store.records <==> record.resourceId in existing || record.resourceId in Ids(t.added);
    ghost var order0, iterated0 := store.order, store.Iterate();
    var ok := store.Add(record);
    if !ok {
      return Duplicate;
    }
    LoadedStep(order0, iterated0, baseOrder, initial, t.added, record);
    outcome := Added;
  }

  /** Appending one record keeps the store's order and contents in step with the run's added records. */
  lemma LoadedStep(order: seq<string>, iterated: seq<ConditionRecord>, baseOrder: seq<string>,
                   initial: seq<ConditionRecord>, added: seq<ConditionRecord>, r: ConditionRecord)
    requires order == baseOrder + Ids(added) && iterated == initial + added
    ensures order + [r.resourceId] == baseOrder + Ids(added + [r])
    ensures iterated + [r] == initial + (added + [r])
  {
    ConcatAssoc(initial, added, [r]);
    IdsAppend(added, r);
    ConcatAssoc(baseOrder, Ids(added), [r.resourceId]);
  }

  /**
   * One iteration of the ingestion loop: builds the record, offers it to the
   * store, and updates the counters and the flag counts to match.
   */
  method IngestOne(raw: RawCondition, batchNumber: int, parse: string -> Option<int>, store: ConditionStore,
                   counts: map<string, nat>, added: nat, skipped: nat, errored: nat,
                   ghost t: Tally, ghost existing: set<string>, ghost baseOrder: seq<string>, ghost initial: seq<ConditionRecord>)
    returns (counts': map<string, nat>, added': nat, skipped': nat, errored': nat, ghost t': Tally)
    requires forall id :: id in baseOrder <==> id in existing
    requires Loaded(store, baseOrder, initial, t.added)
    requires added == |t.added| && skipped == t.duplicates && errored == t.errors
    requires forall f :: Get(counts, f) == CountCarrying(t.added, f)
    requires forall f :: f in counts ==> counts[f] > 0
    modifies store
    ensures t' == TallyNext(t, BuildConditionRecord(raw, batchNumber, parse), existing)
    ensures Loaded(store, baseOrder, initial, t'.added)
    ensures added' == |t'.added| && skipped' == t'.duplicates && errored' == t'.errors
    ensures forall f :: Get(counts', f) == CountCarrying(t'.added, f)
    ensures forall f :: f in counts' ==> counts'[f] > 0
    ensures RemovalMonotone(old(store.records), store.records)
  {
    var built := BuildConditionRecord(raw, batchNumber, parse);
    assert built.Ok? ==> NoDup(built.value.qualityFlags);
    counts', added', skipped', errored', t' := Account(built, store, counts, added, skipped, errored, t, existing, baseOrder, initial);
  }

  /** Offers one built record to the store and moves the counter its outcome names. */
  method Account(built: Result<ConditionRecord>, store: ConditionStore,
                 counts: map<string, nat>, added: nat, skipped: nat, errored: nat,
                 ghost t: Tally, ghost existing: set<string>, ghost baseOrder: seq<string>, ghost initial: seq<ConditionRecord>)
    returns (counts': map<string, nat>, added': nat, skipped': nat, errored': nat, ghost t': Tally)
    requires built.Ok? ==> NoDup(built.value.qualityFlags)
    requires forall id :: id in baseOrder <==> id in existing
    requires Loaded(store, baseOrder, initial, t.added)
    requires added == |t.added| && skipped == t.duplicates && errored == t.errors
    requires forall f :: Get(counts, f) == CountCarrying(t.added, f)
    requires forall f :: f in counts ==> counts[f] > 0
    modifies store
    ensures t' == TallyNext(t, built, existing)
    ensures Loaded(store, baseOrder, initial, t'.added)
    ensures added' == |t'.added| && skipped' == t'.duplicates && errored' == t'.errors
    ensures forall f :: Get(counts', f) == CountCarrying(t'.added, f)
    ensures forall f :: f in counts' ==> counts'[f] > 0
    ensures RemovalMonotone(old(store.records), store.records)
  {
    var outcome := StoreOne(built, store, t, existing, baseOrder, initial);
    OutcomeMeaning(t, built, existing);
    counts', added', skipped', errored' := counts, added, skipped, errored;
    match outcome
    case Added =>
      counts' := CountRecordFlags(counts, built.value, t.added);
      added' := added + 1;
      t' := t.(added := t.added + [built.value]);
    case Duplicate =>
      skipped' := skipped + 1;
      t' := t.(duplicates := t.duplicates + 1);
    case Errored =>
      errored' := errored + 1;
      t' := t.(errors := t.errors + 1);
  }

  /**
   * `ingest_batch` without the dashboard: validates and adds every input in
   * order. The counts agree with the reference run, and the store gains
   * exactly the records it adds, in order.
   */
  method LoadBatch(raws: seq<RawCondition>, batchNumber: int, store: ConditionStore, parse: string -> Option<int>)
    returns (added: nat, skipped: nat, errored: nat, flagCounts: map<string, nat>)
    requires store.Valid()
    modifies store
    ensures store.Valid()
    ensures var t := IngestTally(raws, batchNumber, parse, old(store.records).Keys);
      && added == |t.added| && skipped == t.duplicates && errored == t.errors
      && (forall f :: Get(flagCounts, f) == CountCarrying(t.added, f))
      && (forall f :: f in flagCounts ==> flagCounts[f] > 0)
      && store.order == old(store.order) + Ids(t.added)
      && store.Iterate() == old(store.Iterate()) + t.added
    ensures RemovalMonotone(old(store.records), store.records)
  {
    ghost var existing := store.records.Keys;
    ghost var baseOrder := store.order;
    ghost var initial := store.Iterate();
    ghost var t := Tally([], 0, 0);
    added, skipped, errored := 0, 0, 0;
    flagCounts := map[];
    var i := 0;
    while i < |raws|
      invariant 0 <= i <= |raws|
      invariant t == IngestTally(raws[..i], batchNumber, parse, existing)
      invariant added == |t.added| && skipped == t.duplicates && errored == t.errors
      invariant Loaded(store, baseOrder, initial, t.added)
      invariant forall f :: Get(flagCounts, f) == CountCarrying(t.added, f)
      invariant forall f :: f in flagCounts ==> flagCounts[f] > 0
      invariant RemovalMonotone(old(store.records), store.records)
    {
      IngestTallyStep(raws, i, batchNumber, parse, existing);
      ghost var before := store.records;
      flagCounts, added, skipped, errored, t :=
        IngestOne(raws[i], batchNumber, parse, store, flagCounts, added, skipped, errored, t, existing, baseOrder, initial);
      RemovalMonotoneTrans(old(store.records), before, store.records);
      i := i + 1;
    }
    assert raws[..i] == raws;
  }

  /**
   * `ingest_batch`: loads the batch into the store and records it with the
   * dashboard. The metrics agree with the reference run: every input is
   * received and is added, a duplicate or an error; the flag counts are, per
   * flag, the number of added records carrying it. The store gains exactly
   * the added records, in order, and the dashboard exactly this batch.
   */
  method IngestBatch(raws: seq<RawCondition>, batchNumber: int, store: ConditionStore, dashboard: MonitoringDashboard,
                     parse: string -> Option<int>)
    returns (metrics: BatchMetrics)
    requires store.Valid() && dashboard.Valid()
    modifies store, dashboard
    ensures store.Valid() && dashboard.Valid()
    ensures var t := IngestTally(raws, batchNumber, parse, old(store.records).Keys);
      && metrics.batchNumber == batchNumber && metrics.received == |raws|
      && metrics.added == |t.added| && metrics.skippedDuplicate == t.duplicates && metrics.errored == t.errors
      && (forall f :: Get(metrics.flags, f) == CountCarrying(t.added, f))
      && (forall f :: f in metrics.flags ==> metrics.flags[f] > 0)
      && store.order == old(store.order) + Ids(t.added)
      && store.Iterate() == old(store.Iterate()) + t.added
    ensures metrics.added + metrics.skippedDuplicate + metrics.errored == metrics.received
    ensures dashboard.ingestionBatches == old(dashboard.ingestionBatches) + [metrics]
    ensures dashboard.corrections == old(dashboard.corrections)
    ensures RemovalMonotone(old(store.records), store.records)
  {
    var added, skipped, errored, flagCounts := LoadBatch(raws, batchNumber, store, parse);
    metrics := BatchMetrics(batchNumber, |raws|, added, skipped, errored, flagCounts);
    dashboard.RecordBatch(metrics);
  }

  /**
   * `split_into_batches` after the shuffle: the first half takes the middle
   * element of an odd-length list. The halves put back together give the
   * list, and the first is as long as the second or one longer.
   */
  function SplitIntoBatches<T>(shuffled: seq<T>): (r: (seq<T>, seq<T>))
    ensures r.0 + r.1 == shuffled
    ensures |r.0| == |r.1| || |r.0| == |r.1| + 1
  {
    var mid := |shuffled| / 2 + |shuffled| % 2;
    (shuffled[..mid], shuffled[mid..])
  }
}
