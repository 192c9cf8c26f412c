/**
 * The monitoring ledger: an append-only log of ingestion batches with running
 * quality-flag totals, and an append-only audit log of corrections.
 */
module Monitoring {
  import opened Base

  /** The counters of one ingestion run. */
  datatype BatchMetrics = BatchMetrics(
    batchNumber: int,
    received: nat,
    added: nat,
    skippedDuplicate: nat,
    errored: nat,
    flags: map<string, nat>)

  /** One audit entry: one per successful correction operation. */
  datatype CorrectionEntry = CorrectionEntry(
    timestamp: string,
    action: string,
    target: string,
    reason: string,
    recordsAffected: nat)

  /** The integer parts of `get_system_status` (the latency average is not modelled). */
  datatype SystemStatus = SystemStatus(
    totalConditionsLoaded: nat,
    totalActive: int,
    totalRemoved: int,
    ingestionBatches: seq<BatchMetrics>,
    qualityFlagsTotal: map<string, nat>,
    correctionsApplied: nat,
    conditionsRemoved: nat)

  /** `counts.get(key, 0)`. */
  function Get(m: map<string, nat>, key: string): nat
  {
    if key in m then m[key] else 0
  }

  /** The sum of `flags[f]` over a sequence of batches. */
  function FlagTotal(batches: seq<BatchMetrics>, f: string): nat
  {
    if batches == [] then 0
    else FlagTotal(batches[..|batches| - 1], f) + Get(batches[|batches| - 1].flags, f)
  }

  /** Every flag name that some batch counted. */
  function FlagNames(batches: seq<BatchMetrics>): set<string>
  {
    if batches == [] then {}
    else FlagNames(batches[..|batches| - 1]) + batches[|batches| - 1].flags.Keys
  }

  /** The sum of `received` over a sequence of batches. */
  function TotalReceived(batches: seq<BatchMetrics>): nat
  {
    if batches == [] then 0
    else TotalReceived(batches[..|batches| - 1]) + batches[|batches| - 1].received
  }

  /** The sum of `records_affected` over the audit log. */
  function TotalAffected(entries: seq<CorrectionEntry>): nat
  {
    if entries == [] then 0
    else TotalAffected(entries[..|entries| - 1]) + entries[|entries| - 1].recordsAffected
  }

  /** A flag that no batch names has total zero. */
  lemma {:induction false} UnnamedFlagTotal(batches: seq<BatchMetrics>, f: string)
    requires f !in FlagNames(batches)
    ensures FlagTotal(batches, f) == 0
  {
    if batches != [] {
      UnnamedFlagTotal(batches[..|batches| - 1], f);
    }
  }

  class MonitoringDashboard {
    var ingestionBatches: seq<BatchMetrics>
    var qualityFlagsTotal: map<string, nat>
    var corrections: seq<CorrectionEntry>

    /** The running totals are the per-flag sums over every recorded batch. */
    ghost predicate Valid()
      reads this
    {
      && qualityFlagsTotal.Keys == FlagNames(ingestionBatches)
      && forall f :: Get(qualityFlagsTotal, f) == FlagTotal(ingestionBatches, f)
    }

    constructor ()
      ensures Valid()
      ensures ingestionBatches == [] && qualityFlagsTotal == map[] && corrections == []
    {
      ingestionBatches := [];
      qualityFlagsTotal := map[];
      corrections := [];
    }

    /**
     * `record_batch`: appends the batch, and adds each of its flag counts to
     * the running total of that flag; totals of other flags are unchanged.
     */
    method RecordBatch(metrics: BatchMetrics)
      requires Valid()
      modifies this
      ensures Valid()
      ensures ingestionBatches == old(ingestionBatches) + [metrics]
      ensures corrections == old(corrections)
      ensures qualityFlagsTotal.Keys == old(qualityFlagsTotal).Keys + metrics.flags.Keys
      ensures forall f :: Get(qualityFlagsTotal, f) == Get(old(qualityFlagsTotal), f) + Get(metrics.flags, f)
      ensures TotalReceived(ingestionBatches) == TotalReceived(old(ingestionBatches)) + metrics.received
    {
      ingestionBatches := ingestionBatches + [metrics];
      assert ingestionBatches[..|ingestionBatches| - 1] == old(ingestionBatches);
      var pending := metrics.flags.Keys;
      while pending != {}
        invariant pending <= metrics.flags.Keys
        invariant qualityFlagsTotal.Keys == old(qualityFlagsTotal).Keys + (metrics.flags.Keys - pending)
        invariant forall f :: Get(qualityFlagsTotal, f)
                    == Get(old(qualityFlagsTotal), f) + (if f in metrics.flags && f !in pending then metrics.flags[f] else 0)
        invariant ingestionBatches == old(ingestionBatches) + [metrics] && corrections == old(corrections)
        decreases pending
      {
        var name :| name in pending;
        qualityFlagsTotal := qualityFlagsTotal[name := Get(qualityFlagsTotal, name) + metrics.flags[name]];
        pending := pending - {name};
      }
    }

    /** `record_correction`: appends one entry; earlier entries are untouched. */
    method RecordCorrection(action: string, target: string, reason: string, recordsAffected: nat, now: string)
      modifies this
      ensures corrections == old(corrections) + [CorrectionEntry(now, action, target, reason, recordsAffected)]
      ensures ingestionBatches == old(ingestionBatches) && qualityFlagsTotal == old(qualityFlagsTotal)
      ensures TotalAffected(corrections) == TotalAffected(old(corrections)) + recordsAffected
    {
      corrections := corrections + [CorrectionEntry(now, action, target, reason, recordsAffected)];
      assert corrections[..|corrections| - 1] == old(corrections);
    }

    /**
     * `get_system_status`: records loaded is the sum of `received`, corrections
     * applied the number of audit entries, conditions removed the sum of their
     * counts; the store counts are echoed. Being a function, it changes nothing.
     */
    function GetSystemStatus(storeActive: int, storeRemoved: int): (s: SystemStatus)
      reads this
      ensures s.totalActive == storeActive && s.totalRemoved == storeRemoved
      ensures s.ingestionBatches == ingestionBatches && s.qualityFlagsTotal == qualityFlagsTotal
      ensures s.correctionsApplied == |corrections|
      ensures s.totalConditionsLoaded == TotalReceived(ingestionBatches)
      ensures s.conditionsRemoved == TotalAffected(corrections)
      ensures corrections == [] ==> s.conditionsRemoved == 0
      ensures ingestionBatches == [] ==> s.totalConditionsLoaded == 0
      ensures Valid() ==> forall f :: Get(s.qualityFlagsTotal, f) == FlagTotal(s.ingestionBatches, f)
    {
      SystemStatus(TotalReceived(ingestionBatches), storeActive, storeRemoved, ingestionBatches,
                   qualityFlagsTotal, |corrections|, TotalAffected(corrections))
    }
  }
}
