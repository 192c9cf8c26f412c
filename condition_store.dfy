/**
 * The condition store: records keyed by resource id, kept in insertion order,
 * with first-write-wins insertion and a one-way soft delete.
 */
module Storage {
  import opened Base
  import opened ConditionModel

  /** The resource ids of a sequence of records, position by position. */
  function Ids(rs: seq<ConditionRecord>): (ids: seq<string>)
    ensures |ids| == |rs|
    ensures forall i :: 0 <= i < |rs| ==> ids[i] == rs[i].resourceId
  {
    seq(|rs|, i requires 0 <= i < |rs| => rs[i].resourceId)
  }

  lemma IdsAppend(rs: seq<ConditionRecord>, r: ConditionRecord)
    ensures Ids(rs + [r]) == Ids(rs) + [r.resourceId]
  {
  }

  predicate IsActive(r: ConditionRecord)
  {
    !r.isRemoved
  }

  predicate IsRemoved(r: ConditionRecord)
  {
    r.isRemoved
  }

  /** The values of `m` listed in the order of `ids`. */
  function ValuesInOrder(ids: seq<string>, m: map<string, ConditionRecord>): (rs: seq<ConditionRecord>)
    requires forall id :: id in ids ==> id in m
    ensures |rs| == |ids|
    ensures forall i :: 0 <= i < |ids| ==> rs[i] == m[ids[i]]
  {
    seq(|ids|, i requires 0 <= i < |ids| => m[ids[i]])
  }

  /** Replacing the value of a key that occurs once, at position `j`, replaces position `j` of the listing. */
  lemma ValuesInOrderUpdate(ids: seq<string>, m: map<string, ConditionRecord>, j: nat, x: ConditionRecord)
    requires NoDup(ids) && j < |ids|
    requires forall id :: id in ids ==> id in m
    ensures ValuesInOrder(ids, m[ids[j] := x]) == ValuesInOrder(ids, m)[j := x]
  {
    var a := ValuesInOrder(ids, m[ids[j] := x]);
    var b := ValuesInOrder(ids, m)[j := x];
    forall i | 0 <= i < |ids| ensures a[i] == b[i] {
      if i != j {
        assert ids[i] != ids[j];
      }
    }
  }

  /** Marking the active record at position `j` removed moves exactly one record from active to removed. */
  lemma RemovalMovesOne(ids: seq<string>, m: map<string, ConditionRecord>, j: nat, x: ConditionRecord)
    requires NoDup(ids) && j < |ids|
    requires forall id :: id in ids ==> id in m
    requires !m[ids[j]].isRemoved && x.isRemoved
    ensures |Filter(ValuesInOrder(ids, m[ids[j] := x]), IsActive)| + 1 == |Filter(ValuesInOrder(ids, m), IsActive)|
    ensures |Filter(ValuesInOrder(ids, m[ids[j] := x]), IsRemoved)| == |Filter(ValuesInOrder(ids, m), IsRemoved)| + 1
  {
    ValuesInOrderUpdate(ids, m, j, x);
    FilterLosesOne(ValuesInOrder(ids, m), j, x, IsActive);
    FilterGainsOne(ValuesInOrder(ids, m), j, x, IsRemoved);
  }

  /** A filter keeps distinct ids distinct. */
  lemma {:induction false} FilterKeepsIdsDistinct(rs: seq<ConditionRecord>, p: ConditionRecord -> bool)
    requires NoDup(Ids(rs))
    ensures NoDup(Ids(Filter(rs, p)))
  {
    if rs != [] {
      var init := rs[..|rs| - 1];
      var last := rs[|rs| - 1];
      assert Ids(init) == Ids(rs)[..|rs| - 1];
      FilterKeepsIdsDistinct(init, p);
      var f := Filter(init, p);
      if p(last) {
        forall i | 0 <= i < |f| ensures f[i].resourceId != last.resourceId {
          var k :| 0 <= k < |init| && init[k] == f[i];
          assert Ids(rs)[k] != Ids(rs)[|rs| - 1];
        }
        assert Ids(f + [last]) == Ids(f) + [last.resourceId];
      }
    }
  }

  /**
   * Removal is monotone: no entry disappears, and a removed record stays
   * exactly as it was (in particular it is never made active again).
   */
  ghost predicate RemovalMonotone(before: map<string, ConditionRecord>, after: map<string, ConditionRecord>)
  {
    && before.Keys <= after.Keys
    && forall id :: id in before && before[id].isRemoved ==> id in after && after[id] == before[id]
  }

  lemma MarkingActiveIsMonotone(m: map<string, ConditionRecord>, id: string, x: ConditionRecord)
    requires id in m && !m[id].isRemoved
    ensures RemovalMonotone(m, m[id := x])
  {
  }

  /**
   * The store's representation invariant on plain values: the insertion order
   * lists every key exactly once, and each record is stored under its own id.
   */
  ghost predicate Indexed(order: seq<string>, records: map<string, ConditionRecord>)
  {
    && NoDup(order)
    && (forall id :: id in records <==> id in order)
    && (forall id :: id in records ==> records[id].resourceId == id)
  }

  /** Inserting a record under a new id appends it to the listing and to exactly one of the two views. */
  lemma InsertKeepsIndexed(order: seq<string>, records: map<string, ConditionRecord>, r: ConditionRecord)
    requires Indexed(order, records) && r.resourceId !in records
    ensures Indexed(order + [r.resourceId], records[r.resourceId := r])
    ensures ValuesInOrder(order + [r.resourceId], records[r.resourceId := r]) == ValuesInOrder(order, records) + [r]
    ensures |Filter(ValuesInOrder(order + [r.resourceId], records[r.resourceId := r]), IsActive)|
         == |Filter(ValuesInOrder(order, records), IsActive)| + (if !r.isRemoved then 1 else 0)
    ensures |Filter(ValuesInOrder(order + [r.resourceId], records[r.resourceId := r]), IsRemoved)|
         == |Filter(ValuesInOrder(order, records), IsRemoved)| + (if r.isRemoved then 1 else 0)
  {
    var before := ValuesInOrder(order, records);
    ValuesInOrderAppend(order, records, r);
    FilterAppend(before, r, IsActive);
    FilterAppend(before, r, IsRemoved);
    AppendKeepsIndexed(order, records, r);
  }

  lemma AppendKeepsIndexed(order: seq<string>, records: map<string, ConditionRecord>, r: ConditionRecord)
    requires Indexed(order, records) && r.resourceId !in records
    ensures Indexed(order + [r.resourceId], records[r.resourceId := r])
  {
  }

  lemma ValuesInOrderAppend(ids: seq<string>, m: map<string, ConditionRecord>, r: ConditionRecord)
    requires forall id :: id in ids ==> id in m
    requires r.resourceId !in ids
    ensures ValuesInOrder(ids + [r.resourceId], m[r.resourceId := r]) == ValuesInOrder(ids, m) + [r]
  {
    var a := ValuesInOrder(ids + [r.resourceId], m[r.resourceId := r]);
    var b := ValuesInOrder(ids, m) + [r];
    forall i | 0 <= i < |a| ensures a[i] == b[i] {
      if i < |ids| {
        assert (ids + [r.resourceId])[i] == ids[i] != r.resourceId;
      }
    }
  }

  /** Marking an active record removed keeps the invariant and moves one record from active to removed. */
  lemma RemovalKeepsIndexed(order: seq<string>, records: map<string, ConditionRecord>, id: string, x: ConditionRecord)
    requires Indexed(order, records) && id in records && !records[id].isRemoved
    requires x.isRemoved && x.resourceId == id
    ensures Indexed(order, records[id := x])
    ensures |Filter(ValuesInOrder(order, records[id := x]), IsActive)| + 1 == |Filter(ValuesInOrder(order, records), IsActive)|
    ensures |Filter(ValuesInOrder(order, records[id := x]), IsRemoved)| == |Filter(ValuesInOrder(order, records), IsRemoved)| + 1
    ensures RemovalMonotone(records, records[id := x])
  {
    ReplaceKeepsIndexed(order, records, id, x);
    RemovalMovesOne(order, records, IndexOf(order, id), x);
  }

  /** Replacing the record stored under an id by one with the same id keeps the invariant. */
  lemma ReplaceKeepsIndexed(order: seq<string>, records: map<string, ConditionRecord>, id: string, x: ConditionRecord)
    requires Indexed(order, records) && id in records && !records[id].isRemoved && x.resourceId == id
    ensures Indexed(order, records[id := x])
    ensures RemovalMonotone(records, records[id := x])
  {
  }

  class ConditionStore {
    /** The stored records, by resource id. */
    var records: map<string, ConditionRecord>
    /** The dictionary's insertion order. */
    var order: seq<string>

    ghost predicate Valid()
      reads this
    {
      Indexed(order, records)
    }

    constructor ()
      ensures Valid() && records == map[] && order == []
    {
      records := map[];
      order := [];
    }

    /** `iterate()`: a copy of all records, in insertion order. */
    function Iterate(): (rs: seq<ConditionRecord>)
      reads this
      requires Valid()
      ensures Ids(rs) == order
      ensures forall i :: 0 <= i < |rs| ==> rs[i] == records[rs[i].resourceId]
    {
      ValuesInOrder(order, records)
    }

    /** `get_by_id`: the record stored under `id`, if any. */
    function GetById(id: string): (r: Option<ConditionRecord>)
      reads this
      requires Valid()
      ensures r.Some? <==> id in order
      ensures r.Some? ==> r.value.resourceId == id && r.value in Iterate()
    {
      if id in records then
        assert records[id] == Iterate()[IndexOf(order, id)];
        Some(records[id])
      else None
    }

    /** `get_all_active`: the records not yet removed, in insertion order. */
    function GetAllActive(): (rs: seq<ConditionRecord>)
      reads this
      requires Valid()
    {
      Filter(Iterate(), IsActive)
    }

    /** `get_all_removed`: the removed records, in insertion order. */
    function GetAllRemoved(): (rs: seq<ConditionRecord>)
      reads this
      requires Valid()
    {
      Filter(Iterate(), IsRemoved)
    }

    function TotalCount(): nat
      reads this
    {
      |records|
    }

    function ActiveCount(): (n: nat)
      reads this
      requires Valid()
    {
      |GetAllActive()|
    }

    function RemovedCount(): (n: nat)
      reads this
      requires Valid()
    {
      |GetAllRemoved()|
    }

    /** There are as many stored records as ids in the insertion order. */
    lemma TotalIsOrderLength()
      requires Valid()
      ensures TotalCount() == |order| == |Iterate()|
    {
      NoDupCardinality(order);
      assert records.Keys == set id | id in order;
    }

    /** Every record is either active or removed: the two views partition the store. */
    lemma CountsAddUp()
      requires Valid()
      ensures ActiveCount() + RemovedCount() == TotalCount()
      ensures multiset(GetAllActive()) + multiset(GetAllRemoved()) == multiset(Iterate())
      ensures forall r :: r in GetAllActive() <==> r in Iterate() && !r.isRemoved
      ensures forall r :: r in GetAllRemoved() <==> r in Iterate() && r.isRemoved
    {
      TotalIsOrderLength();
      FilterPartition(Iterate(), IsActive, IsRemoved);
    }

    /** An active snapshot holds the stored records of distinct ids. */
    lemma ActiveSnapshot()
      requires Valid()
      ensures NoDup(Ids(GetAllActive()))
      ensures forall r :: r in GetAllActive() ==> r.resourceId in records && records[r.resourceId] == r && !r.isRemoved
      ensures forall id :: id in records && !records[id].isRemoved ==> records[id] in GetAllActive()
    {
      FilterKeepsIdsDistinct(Iterate(), IsActive);
      forall id | id in records && !records[id].isRemoved ensures records[id] in GetAllActive() {
        assert Iterate()[IndexOf(order, id)] == records[id];
      }
    }

    /** `add`: inserts the record iff its id is new; a duplicate leaves the store as it was. */
    method Add(r: ConditionRecord) returns (added: bool)
      requires Valid()
      modifies this
      ensures Valid()
      ensures added <==> r.resourceId !in old(records)
      ensures added ==> records == old(records)[r.resourceId := r] && order == old(order) + [r.resourceId]
      ensures !added ==> records == old(records) && order == old(order)
      ensures TotalCount() == old(TotalCount()) + (if added then 1 else 0)
      ensures Iterate() == old(Iterate()) + (if added then [r] else [])
      ensures ActiveCount() == old(ActiveCount()) + (if added && !r.isRemoved then 1 else 0)
      ensures RemovedCount() == old(RemovedCount()) + (if added && r.isRemoved then 1 else 0)
      ensures RemovalMonotone(old(records), records)
    {
      if r.resourceId in records {
        return false;
      }
      InsertKeepsIndexed(order, records, r);
      records := records[r.resourceId := r];
      order := order + [r.resourceId];
      added := true;
    }

    /**
     * `soft_remove`: an unknown or already removed id gives false and changes
     * nothing; otherwise the record is marked removed with the reason and time,
     * one record moves from active to removed, and nothing else changes.
     */
    method SoftRemove(id: string, reason: string, now: string) returns (ok: bool)
      requires Valid()
      modifies this
      ensures Valid()
      ensures ok <==> id in old(records) && !old(records)[id].isRemoved
      ensures ok ==> records == old(records)[id := MarkRemoved(old(records)[id], reason, now)]
      ensures !ok ==> records == old(records)
      ensures order == old(order)
      ensures TotalCount() == old(TotalCount())
      ensures ActiveCount() == old(ActiveCount()) - (if ok then 1 else 0)
      ensures RemovedCount() == old(RemovedCount()) + (if ok then 1 else 0)
      ensures RemovalMonotone(old(records), records)
    {
      if id !in records || records[id].isRemoved {
        return false;
      }
      var updated := MarkRemoved(records[id], reason, now);
      RemovalKeepsIndexed(order, records, id, updated);
      records := records[id := updated];
      ok := true;
    }
  }

  /** The position of `x` in a sequence that holds it. */
  function IndexOf<T(==)>(s: seq<T>, x: T): (i: nat)
    requires x in s
    ensures i < |s| && s[i] == x
  {
    if s[0] == x then 0 else 1 + IndexOf(s[1..], x)
  }
}
