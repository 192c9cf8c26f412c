/**
 * The record model: the slice of the HL7 FHIR R4 Condition resource that the
 * manager reads, the normalised `ConditionRecord` built from it, and the fixed
 * quality-flag metadata table.
 */
module ConditionModel {
  import opened Base

  // ---------------------------------------------------------------------------
  // FHIR input shapes. After validation only `id` is mandatory; every other
  // field is optional or a list that defaults to empty.
  // ---------------------------------------------------------------------------

  datatype FhirCoding = FhirCoding(system: Option<string>, code: Option<string>, display: Option<string>)

  datatype FhirCodeableConcept = FhirCodeableConcept(text: Option<string>, coding: seq<FhirCoding>)

  datatype FhirPeriod = FhirPeriod(start: Option<string>, end: Option<string>)

  datatype FhirReference = FhirReference(reference: Option<string>)

  datatype FhirIdentifier = FhirIdentifier(system: Option<string>, value: Option<string>)

  /** A `RelatedArtifact`; its `type` field is called `kind` here (`type` is a Dafny keyword). */
  datatype FhirRelatedArtifact = FhirRelatedArtifact(kind: Option<string>, display: Option<string>)

  datatype FhirExtension = FhirExtension(url: Option<string>, valueRelatedArtifact: Option<FhirRelatedArtifact>)

  datatype FhirCondition = FhirCondition(
    resourceType: string,
    id: string,
    identifier: seq<FhirIdentifier>,
    clinicalStatus: Option<FhirCodeableConcept>,
    code: Option<FhirCodeableConcept>,
    onsetPeriod: Option<FhirPeriod>,
    category: seq<FhirCodeableConcept>,
    subject: Option<FhirReference>,
    recorder: Option<FhirReference>,
    extension: seq<FhirExtension>)

  /**
   * A Condition before validation: the same shape, except that `id` and
   * `resourceType` may be missing.
   */
  datatype RawCondition = RawCondition(
    resourceType: Option<string>,
    id: Option<string>,
    identifier: seq<FhirIdentifier>,
    clinicalStatus: Option<FhirCodeableConcept>,
    code: Option<FhirCodeableConcept>,
    onsetPeriod: Option<FhirPeriod>,
    category: seq<FhirCodeableConcept>,
    subject: Option<FhirReference>,
    recorder: Option<FhirReference>,
    extension: seq<FhirExtension>)

  /**
   * Model validation: it fails exactly when the mandatory `id` is missing;
   * a missing `resourceType` takes its default "Condition"; every other field
   * is carried over unchanged.
   */
  function Validate(raw: RawCondition): (r: Result<FhirCondition>)
    ensures r.Ok? <==> raw.id.Some?
    ensures r.Ok? ==> (r.value.id == raw.id.value
      && r.value.resourceType == (if raw.resourceType.Some? then raw.resourceType.value else "Condition")
      && r.value.clinicalStatus == raw.clinicalStatus && r.value.code == raw.code
      && r.value.onsetPeriod == raw.onsetPeriod && r.value.extension == raw.extension
      && r.value.identifier == raw.identifier && r.value.category == raw.category
      && r.value.subject == raw.subject && r.value.recorder == raw.recorder)
  {
    match raw.id
    case None => Err("id: field required")
    case Some(id) =>
      Ok(FhirCondition(
        if raw.resourceType.Some? then raw.resourceType.value else "Condition",
        id, raw.identifier, raw.clinicalStatus, raw.code, raw.onsetPeriod,
        raw.category, raw.subject, raw.recorder, raw.extension))
  }

  /** Python truthiness of an optional string: present and non-empty. */
  predicate Truthy(s: Option<string>)
  {
    s.Some? && s.value != ""
  }

  // ---------------------------------------------------------------------------
  // Coding-system URIs.
  // ---------------------------------------------------------------------------

  const ICD10_SYSTEM: string := "http://hl7.org/fhir/sid/icd-10-cm"
  const SNOMED_SYSTEM: string := "http://snomed.info/sct"
  const ICD9_SYSTEM: string := "http://terminology.hl7.org/CodeSystem/ICD-9CM-diagnosiscodes"
  const IMO_SYSTEM: string := "http://terminology.hl7.org/CodeSystem-IMO.html"

  // ---------------------------------------------------------------------------
  // Quality flags and their fixed metadata.
  // ---------------------------------------------------------------------------

  const MISSING_CLINICAL_STATUS: string := "missing_clinical_status"
  const INCONSISTENT_STATUS: string := "inconsistent_status"
  const ADMIN_CODE: string := "admin_code"
  const VAGUE_ENTRY: string := "vague_entry"
  const SHORT_DURATION: string := "short_duration"
  const MISSING_ICD10: string := "missing_icd10"

  /** The six flags ingestion can emit, in the order it emits them. */
  const FLAG_ORDER: seq<string> :=
    [MISSING_CLINICAL_STATUS, INCONSISTENT_STATUS, ADMIN_CODE, VAGUE_ENTRY, SHORT_DURATION, MISSING_ICD10]

  datatype Severity = High | Medium | Low

  datatype FlagMetadata = FlagMetadata(severity: Severity, description: string)

  const QUALITY_FLAG_METADATA: map<string, FlagMetadata> := map[
    ADMIN_CODE := FlagMetadata(High, "Non-clinical admin entry"),
    VAGUE_ENTRY := FlagMetadata(High, "Encounter/procedure code, not a condition"),
    MISSING_CLINICAL_STATUS := FlagMetadata(Medium, "No active/resolved status provided"),
    INCONSISTENT_STATUS := FlagMetadata(Medium, "End date vs. clinical status mismatch"),
    SHORT_DURATION := FlagMetadata(Low, "Condition duration under 24 hours"),
    MISSING_ICD10 := FlagMetadata(Low, "No ICD-10 code, SNOMED only")
  ]

  /** `QUALITY_FLAG_METADATA.get(flag, {}).get("severity")`. */
  function SeverityOf(flag: string): (r: Option<Severity>)
    ensures r == Some(High) <==> flag == ADMIN_CODE || flag == VAGUE_ENTRY
    ensures r == Some(Medium) <==> flag == MISSING_CLINICAL_STATUS || flag == INCONSISTENT_STATUS
    ensures r == Some(Low) <==> flag == SHORT_DURATION || flag == MISSING_ICD10
    ensures r == None <==> flag !in FLAG_ORDER
  {
    if flag in QUALITY_FLAG_METADATA then Some(QUALITY_FLAG_METADATA[flag].severity) else None
  }

  /** The table has exactly one entry per flag that ingestion can emit. */
  lemma MetadataCoversEmittedFlags()
    ensures QUALITY_FLAG_METADATA.Keys == set f | f in FLAG_ORDER
    ensures NoDup(FLAG_ORDER) && |FLAG_ORDER| == |QUALITY_FLAG_METADATA|
  {
    NoDupCardinality(FLAG_ORDER);
    assert QUALITY_FLAG_METADATA.Keys == set f | f in FLAG_ORDER;
  }

  // ---------------------------------------------------------------------------
  // The normalised record.
  // ---------------------------------------------------------------------------

  /**
   * One normalised condition. The five code sets are duplicate-free sequences
   * in first-seen order (insertion-ordered sets); instants are whole seconds.
   */
  datatype ConditionRecord = ConditionRecord(
    resourceId: string,
    fhirCondition: FhirCondition,
    icd10Codes: seq<string>,
    snomedCodes: seq<string>,
    icd9Codes: seq<string>,
    imoCodes: seq<string>,
    allCodes: seq<string>,
    normalizedStatus: string,
    searchableText: string,
    displayName: string,
    onsetStart: Option<int>,
    onsetEnd: Option<int>,
    qualityFlags: seq<string>,
    derivedFromIds: seq<string>,
    isRemoved: bool,
    removalReason: Option<string>,
    removalTimestamp: Option<string>,
    ingestionBatch: Option<int>)

  /** The soft-delete fields agree: all unset while active, reason and time set once removed. */
  predicate SoftDeleteConsistent(r: ConditionRecord)
  {
    if r.isRemoved then r.removalReason.Some? && r.removalTimestamp.Some?
    else r.removalReason.None? && r.removalTimestamp.None?
  }

  /**
   * What ingestion guarantees of every record it builds: duplicate-free code
   * sets, each system's codes among `allCodes`, a non-empty status, flags
   * that are distinct and listed in the metadata table, and consistent
   * soft-delete fields.
   */
  predicate WellFormed(r: ConditionRecord)
  {
    && NoDup(r.icd10Codes) && NoDup(r.snomedCodes) && NoDup(r.icd9Codes) && NoDup(r.imoCodes) && NoDup(r.allCodes)
    && (forall x :: x in r.icd10Codes ==> x in r.allCodes)
    && (forall x :: x in r.snomedCodes ==> x in r.allCodes)
    && (forall x :: x in r.icd9Codes ==> x in r.allCodes)
    && (forall x :: x in r.imoCodes ==> x in r.allCodes)
    && r.normalizedStatus != ""
    && NoDup(r.qualityFlags)
    && (forall f :: f in r.qualityFlags ==> f in QUALITY_FLAG_METADATA)
    && SoftDeleteConsistent(r)
  }

  /** The record with every dataclass default: no codes, status "unknown", empty texts, no flags, not removed. */
  function NewRecord(id: string, condition: FhirCondition): (r: ConditionRecord)
    ensures r.resourceId == id && r.fhirCondition == condition
    ensures !r.isRemoved && SoftDeleteConsistent(r)
    ensures r.normalizedStatus == "unknown" && r.searchableText == "" && r.displayName == ""
    ensures r.icd10Codes == r.snomedCodes == r.icd9Codes == r.imoCodes == r.allCodes == []
    ensures r.qualityFlags == [] && r.derivedFromIds == []
    ensures r.onsetStart.None? && r.onsetEnd.None? && r.ingestionBatch.None?
  {
    ConditionRecord(id, condition, [], [], [], [], [], "unknown", "", "",
                    None, None, [], [], false, None, None, None)
  }

  /**
   * The in-place update of a successful soft removal: the flag, the reason
   * and the time are set, and nothing else about the record changes.
   */
  function MarkRemoved(r: ConditionRecord, reason: string, now: string): (r': ConditionRecord)
    ensures r'.isRemoved && r'.removalReason == Some(reason) && r'.removalTimestamp == Some(now)
    ensures SoftDeleteConsistent(r')
    ensures r'.(isRemoved := r.isRemoved, removalReason := r.removalReason, removalTimestamp := r.removalTimestamp) == r
  {
    r.(isRemoved := true, removalReason := Some(reason), removalTimestamp := Some(now))
  }

  /** `s[:n]` for a natural `n`. */
  function Prefix(s: string, n: nat): (r: string)
    ensures |r| == if n < |s| then n else |s|
    ensures r == s[..|r|]
  {
    if n < |s| then s[..n] else s
  }

  /** The label a removal reports: the display name and the first eight characters of the id. */
  function RemovalLabel(r: ConditionRecord): string
  {
    r.displayName + " (" + Prefix(r.resourceId, 8) + ")"
  }
}
