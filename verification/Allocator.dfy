/** Directory slots: the smallest free one below the limit, and why one is always free under quota. */
module Allocator {
  import opened Domain

  /** The search `(from..limit).find(..)` for a slot that is not in use. */
  function FirstFree(used: set<nat>, from: nat, limit: nat): (r: Option<nat>)
    ensures r.Some? ==> from <= r.value < limit && r.value !in used
    ensures r.Some? ==> forall k :: from <= k < r.value ==> k in used
    ensures r.None? ==> forall k :: from <= k < limit ==> k in used
    decreases limit - from
  {
    if from >= limit then None
    else if from !in used then Some(from)
    else FirstFree(used, from + 1, limit)
  }

  /** Pigeonhole: fewer than `limit` slots in use leaves one free. */
  lemma UnderQuotaHasFreeSlot(used: set<nat>, limit: nat)
    requires |used| < limit
    ensures FirstFree(used, 0, limit).Some?
  {
    if FirstFree(used, 0, limit).None? {
      AllUsedNeedsMany(used, limit);
    }
  }

  lemma {:induction false} AllUsedNeedsMany(used: set<nat>, limit: nat)
    requires forall k: nat :: k < limit ==> k in used
    ensures |used| >= limit
  {
    if limit == 0 {
    } else {
      AllUsedNeedsMany(used - {limit - 1}, limit - 1);
    }
  }

  /** Pigeonhole the other way: distinct slots below a bound cannot outnumber it. */
  lemma {:induction false} FewDistinctSlots<K>(holders: set<K>, slot: map<K, nat>, limit: nat)
    requires holders <= slot.Keys
    requires forall k :: k in holders ==> slot[k] < limit
    requires forall j, k :: j in holders && k in holders && j != k ==> slot[j] != slot[k]
    ensures |holders| <= limit
    decreases limit
  {
    if holders == {} {
    } else {
      var k :| k in holders;
      if limit == 0 {
        assert false;
      } else if exists top :: top in holders && slot[top] == limit - 1 {
        var top :| top in holders && slot[top] == limit - 1;
        FewDistinctSlots(holders - {top}, slot, limit - 1);
      } else {
        FewDistinctSlots(holders, slot, limit - 1);
      }
    }
  }

  function RowsOf(rows: map<ClusterId, Cluster>, owner: ClientId): set<ClusterId> {
    set id | id in rows && rows[id].owner == owner
  }

  function SlotMap(rows: map<ClusterId, Cluster>): map<ClusterId, nat> {
    map id | id in rows :: rows[id].slot
  }

  function UsedSlots(rows: map<ClusterId, Cluster>, owner: ClientId): (used: set<nat>)
    ensures forall id :: id in rows && rows[id].owner == owner ==> rows[id].slot in used
  {
    var used := Image(RowsOf(rows, owner), SlotMap(rows));
    assert forall id :: id in rows && rows[id].owner == owner ==>
      id in RowsOf(rows, owner) && SlotMap(rows)[id] == rows[id].slot;
    used
  }

  lemma FewUsedSlots(rows: map<ClusterId, Cluster>, owner: ClientId)
    ensures |UsedSlots(rows, owner)| <= |RowsOf(rows, owner)|
  {
    ImageNoLarger(RowsOf(rows, owner), SlotMap(rows));
  }

  function Image<K, V>(domain: set<K>, f: map<K, V>): set<V>
    requires domain <= f.Keys
  {
    set k | k in domain :: f[k]
  }

  lemma {:induction false} ImageNoLarger<K, V>(domain: set<K>, f: map<K, V>)
    requires domain <= f.Keys
    ensures |Image(domain, f)| <= |domain|
    decreases domain
  {
    if domain == {} {
    } else {
      var k :| k in domain;
      ImageNoLarger(domain - {k}, f);
      assert Image(domain, f) == Image(domain - {k}, f) + {f[k]};
    }
  }

  /** Every owner's rows have pairwise distinct slots. */
  ghost predicate SlotsDistinct(rows: map<ClusterId, Cluster>) {
    forall c, d :: c in rows && d in rows && c != d && rows[c].owner == rows[d].owner ==>
      rows[c].slot != rows[d].slot
  }

  ghost predicate SlotsBelow(rows: map<ClusterId, Cluster>, limit: nat) {
    forall c :: c in rows ==> rows[c].slot < limit
  }

  /** With distinct slots below the limit, no owner holds more rows than the limit. */
  lemma QuotaFromSlots(rows: map<ClusterId, Cluster>, owner: ClientId, limit: nat)
    requires SlotsDistinct(rows) && SlotsBelow(rows, limit)
    ensures |RowsOf(rows, owner)| <= limit
  {
    FewDistinctSlots(RowsOf(rows, owner), SlotMap(rows), limit);
  }
}
