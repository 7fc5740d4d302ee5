/**
 * The NPC repository: the operations the service relies on, implemented over an in-memory
 * store. A map from id to record stands for the table; `nextId` stands for the table's
 * auto-increment counter. Absence of a record is a `None` (or `false`) result, never an error.
 */
module NpcRepositories {
  import opened Wrappers
  import opened NpcEntity
  import opened NpcDtos

  /**
   * Copies the supplied pairs of `u` onto `npc` one at a time, as the store's update does with
   * the fields of the update that are set; the outcome is the field-wise update.
   */
  method CopySetFields(npc: Npc, u: NpcUpdate) returns (r: Npc)
    ensures r == ApplyUpdate(npc, u)
  {
    var items := SetFields(u);
    r := npc;
    for i := 0 to |items|
      invariant r == AssignAll(npc, items[..i])
    {
      assert items[..i + 1][..i] == items[..i];
      r := Assign(r, items[i]);
    }
    assert items[..|items|] == items;
    AssignAllSetFields(npc, u);
  }

  class NpcRepository {
    /** The stored records, by id. */
    var npcs: map<int, Npc>
    /** The id the next created record receives. */
    var nextId: int

    /** Every record is stored under its own id, and ids are positive and below `nextId`. */
    ghost predicate Valid()
      reads this
    {
      && 1 <= nextId
      && forall id :: id in npcs ==> npcs[id].id == id && 1 <= id < nextId
    }

    /** No stored record has negative health. */
    ghost predicate HealthNonNegative()
      reads this
    {
      forall id :: id in npcs ==> npcs[id].health >= 0
    }

    /** An empty store whose first record will get id 1. */
    constructor ()
      ensures Valid() && HealthNonNegative()
      ensures npcs == map[] && nextId == 1
    {
      npcs := map[];
      nextId := 1;
    }

    /** The record with key `id`, or `None` when there is none. */
    method GetById(id: int) returns (r: Option<Npc>)
      requires Valid()
      ensures r.None? <==> id !in npcs
      ensures r.Some? ==> id in npcs && r.value == npcs[id] && r.value.id == id
    {
      if id in npcs {
        r := Some(npcs[id]);
      } else {
        r := None;
      }
    }

    /** A record with key `id` is stored and its location is `location`. */
    predicate IsAt(id: int, location: string)
      reads this
    {
      id in npcs && npcs[id].location == Some(location)
    }

    /**
     * The ids of the records stored at `location`. The `id in npcs` conjunct repeats part of
     * `IsAt`, but it is the bound that makes the comprehension finite.
     */
    ghost function IdsAt(location: string): set<int>
      reads this
    {
      set id | id in npcs && IsAt(id, location)
    }

    /** Every stored record, each once, in no promised order. */
    method GetAll() returns (r: seq<Npc>)
      requires Valid()
      ensures |r| == |npcs|
      ensures forall i :: 0 <= i < |r| ==> r[i].id in npcs && npcs[r[i].id] == r[i]
      ensures forall id :: id in npcs ==> npcs[id] in r
    {
      r := [];
      ghost var listed: set<int> := {};
      for id := 1 to nextId
        invariant forall i :: 0 <= i < |r| ==> r[i].id in npcs && r[i].id < id && npcs[r[i].id] == r[i]
        invariant forall k :: 1 <= k < id && k in npcs ==> npcs[k] in r
        invariant forall k :: k in listed <==> k in npcs && k < id
        invariant |r| == |listed|
      {
        if id in npcs {
          assert id !in listed;
          r := r + [npcs[id]];
          listed := listed + {id};
        }
      }
      assert forall k :: k in npcs ==> k < nextId;
      assert forall k :: k in listed <==> k in npcs.Keys;
      assert listed == npcs.Keys;
    }

    /** Exactly the stored records whose location is `location`, each once, in no promised order. */
    method GetByLocation(location: string) returns (r: seq<Npc>)
      requires Valid()
      ensures |r| == |IdsAt(location)|
      ensures forall i :: 0 <= i < |r| ==> r[i].id in npcs && npcs[r[i].id] == r[i] && r[i].location == Some(location)
      ensures forall id :: id in npcs && npcs[id].location == Some(location) ==> npcs[id] in r
    {
      r := [];
      ghost var listed: set<int> := {};
      for id := 1 to nextId
        invariant forall i :: 0 <= i < |r| ==>
                    r[i].id in npcs && r[i].id < id && npcs[r[i].id] == r[i] && r[i].location == Some(location)
        invariant forall k :: 1 <= k < id && IsAt(k, location) ==> npcs[k] in r
        invariant forall k :: k in listed <==> IsAt(k, location) && k < id
        invariant |r| == |listed|
      {
        if IsAt(id, location) {
          assert id !in listed;
          r := r + [npcs[id]];
          listed := listed + {id};
        }
      }
      assert forall k :: k in npcs ==> k < nextId;
      assert forall k :: k in listed <==> k in IdsAt(location);
      assert listed == IdsAt(location);
    }

    /** Stores a new record built from `c` under a fresh id and returns it; no other record changes. */
    method Create(c: NpcCreate) returns (r: Npc)
      requires Valid()
      modifies this
      ensures Valid()
      ensures r == FromCreate(old(nextId), c)
      ensures r.id !in old(npcs)
      ensures npcs == old(npcs)[r.id := r]
      ensures nextId == old(nextId) + 1
    {
      r := FromCreate(nextId, c);
      npcs := npcs[nextId := r];
      nextId := nextId + 1;
    }

    /**
     * Copies the supplied fields of `u` onto the record with key `u.id` and returns it;
     * `None`, with nothing changed, when there is no such record.
     */
    method Update(u: NpcUpdate) returns (r: Option<Npc>)
      requires Valid()
      modifies this
      ensures Valid() && nextId == old(nextId)
      ensures u.id !in old(npcs) ==> r == None && npcs == old(npcs)
      ensures u.id in old(npcs) ==>
                && r == Some(ApplyUpdate(old(npcs)[u.id], u))
                && npcs == old(npcs)[u.id := r.value]
    {
      var found := GetById(u.id);
      if found.None? {
        return None;
      }
      var npc := CopySetFields(found.value, u);
      npcs := npcs[u.id := npc];
      r := Some(npc);
    }

    /** Removes the record with key `id`; `true` when there was one, `false` (nothing changed) when not. */
    method Delete(id: int) returns (deleted: bool)
      requires Valid()
      modifies this
      ensures Valid() && nextId == old(nextId)
      ensures deleted == (id in old(npcs))
      ensures npcs == old(npcs) - {id}
      ensures !deleted ==> npcs == old(npcs)
    {
      var found := GetById(id);
      if found.None? {
        return false;
      }
      npcs := npcs - {id};
      deleted := true;
    }

    /** Sets the location of the record with key `id` and returns it; `None` when there is none. */
    method SetLocation(id: int, location: string) returns (r: Option<Npc>)
      requires Valid()
      modifies this
      ensures Valid() && nextId == old(nextId)
      ensures id !in old(npcs) ==> r == None && npcs == old(npcs)
      ensures id in old(npcs) ==>
                && r == Some(old(npcs)[id].(location := Some(location)))
                && npcs == old(npcs)[id := r.value]
    {
      var found := GetById(id);
      if found.None? {
        return None;
      }
      var npc := found.value.(location := Some(location));
      npcs := npcs[id := npc];
      r := Some(npc);
    }

    /**
     * Stores `health` as given, without clamping, in the record with key `id` and returns it;
     * `None` when there is none.
     */
    method SetHealth(id: int, health: int) returns (r: Option<Npc>)
      requires Valid()
      modifies this
      ensures Valid() && nextId == old(nextId)
      ensures id !in old(npcs) ==> r == None && npcs == old(npcs)
      ensures id in old(npcs) ==>
                && r == Some(old(npcs)[id].(health := health))
                && npcs == old(npcs)[id := r.value]
    {
      var found := GetById(id);
      if found.None? {
        return None;
      }
      var npc := found.value.(health := health);
      npcs := npcs[id := npc];
      r := Some(npc);
    }

    /**
     * Lowers the health of the record with key `id` by `damage`, clamped at zero, and returns it;
     * `None` when there is none.
     */
    method ApplyDamage(id: int, damage: int) returns (r: Option<Npc>)
      requires Valid()
      modifies this
      ensures Valid() && nextId == old(nextId)
      ensures old(HealthNonNegative()) ==> HealthNonNegative()
      ensures id !in old(npcs) ==> r == None && npcs == old(npcs)
      ensures id in old(npcs) ==>
                && r == Some(old(npcs)[id].(health := ClampedHealth(old(npcs)[id].health, damage)))
                && r.value.health >= 0
                && npcs == old(npcs)[id := r.value]
    {
      var found := GetById(id);
      if found.None? {
        return None;
      }
      var npc := found.value.(health := ClampedHealth(found.value.health, damage));
      npcs := npcs[id := npc];
      r := Some(npc);
    }
  }
}
