/**
 * RammerheadSessionMemoryStore: every session lives in one in-memory `Map` from id to
 * session; a periodic sweep deletes the expired ones.
 */
module MemoryStores {
  import opened Wrappers
  import opened JsMaps
  import opened Sessions

  class MemoryStore {
    /** `this.mapStore`. */
    var mapStore: JsMap<string, Session>

    ghost predicate Valid()
      reads this
    {
      mapStore.Valid()
    }

    /** The store starts empty; the sweep timer is left out, CleanupRun is its body. */
    constructor ()
      ensures Valid() && mapStore.entries == map[] && mapStore.order == []
    {
      mapStore := Empty();
    }

    /** `keys()`: every stored id once, in insertion order. */
    method Keys() returns (ids: seq<string>)
      requires Valid()
      ensures forall id :: id in ids <==> id in mapStore.entries
      ensures Distinct(ids)
      ensures ids == mapStore.order
    {
      ids := mapStore.order;
    }

    method Has(id: string) returns (exists_: bool)
      ensures exists_ <==> id in mapStore.entries
    {
      exists_ := id in mapStore.entries;
    }

    /**
     * `get(id, updateActiveTimestamp)`: undefined for an absent id; otherwise the stored
     * session, whose last use becomes `now` when `updateActiveTimestamp` is set.
     */
    method Get(id: string, updateActiveTimestamp: bool, now: int) returns (r: Option<Session>)
      requires Valid()
      modifies this
      ensures Valid()
      ensures id !in old(mapStore.entries) ==> r == None && mapStore == old(mapStore)
      ensures id in old(mapStore.entries) && !updateActiveTimestamp ==>
        r == Some(old(mapStore.entries)[id]) && mapStore == old(mapStore)
      ensures id in old(mapStore.entries) && updateActiveTimestamp ==>
        && r == Some(Touch(old(mapStore.entries)[id], now))
        && mapStore.entries == old(mapStore.entries)[id := r.value]
        && mapStore.order == old(mapStore.order)
    {
      var exists_ := Has(id);
      if !exists_ {
        return None;
      }
      var session := mapStore.entries[id];
      if updateActiveTimestamp {
        session := Touch(session, now);
        mapStore := Set(mapStore, id, session);
      }
      r := Some(session);
    }

    /**
     * `add(id)`: throws when the id is present and changes nothing; otherwise stores a new
     * session under the id, last in the key order, and returns it.
     */
    method Add(id: string, now: int) returns (r: Result<Session, JsError>)
      requires Valid()
      modifies this
      ensures Valid()
      ensures id in old(mapStore.entries) ==>
        r == Err(Error("the following session already exists: " + id)) && mapStore == old(mapStore)
      ensures id !in old(mapStore.entries) ==>
        && r == Ok(NewSession(now))
        && mapStore.entries == old(mapStore.entries)[id := NewSession(now)]
        && mapStore.order == old(mapStore.order) + [id]
    {
      var exists_ := Has(id);
      if exists_ {
        return Err(Error("the following session already exists: " + id));
      }
      var session := NewSession(now);
      mapStore := Set(mapStore, id, session);
      r := Ok(session);
    }

    /** `delete(id)`: whether the id was present; only its entry goes, the others keep their order. */
    method Delete(id: string) returns (existed: bool)
      requires Valid()
      modifies this
      ensures Valid()
      ensures existed <==> id in old(mapStore.entries)
      ensures mapStore.entries == old(mapStore.entries) - {id}
      ensures mapStore.order == Remove(old(mapStore.order), id)
    {
      existed := id in mapStore.entries;
      mapStore := JsMaps.Delete(mapStore, id);
    }

    /**
     * `_cleanupRun(staleTimeout, maxToLive)` at time `now`: walks the map in order and
     * deletes exactly the expired sessions; the survivors keep their sessions and order.
     */
    method CleanupRun(staleTimeout: Option<int>, maxToLive: Option<int>, now: int)
      requires Valid()
      modifies this
      ensures Valid()
      ensures SweptBy(mapStore, old(mapStore), Survives(old(mapStore.entries), now, staleTimeout, maxToLive))
    {
      ghost var before := mapStore;
      ghost var keep := Survives(before.entries, now, staleTimeout, maxToLive);
      var ids := mapStore.order;
      var m := mapStore;
      SweepStart(before, keep);
      var i := 0;
      while i < |ids|
        invariant SweepState(m, before, i, keep)
      {
        var id := ids[i];
        SweepAdvance(m, before, i, keep);
        if Expired(m.entries[id], now, staleTimeout, maxToLive) {
          m := JsMaps.Delete(m, id);
        }
        i := i + 1;
      }
      SweepDone(m, before, keep);
      mapStore := m;
    }
  }
}
