/**
 * The NPC service: the business rules in front of the repository. Every mutating operation
 * first looks the id up and answers "not found" (`None` or `false`) without touching the
 * store when it is absent; creation rejects non-positive health; damage is clamped at zero.
 */
module NpcServices {
  import opened Wrappers
  import opened NpcEntity
  import opened NpcDtos
  import opened NpcRepositories

  /** The validation failure creation reports: the health supplied is not greater than 0. */
  datatype ServiceError = HealthNotPositive

  class NpcService {
    /** The repository every operation delegates to. */
    const repository: NpcRepository

    constructor (repository: NpcRepository)
      ensures this.repository == repository
    {
      this.repository := repository;
    }

    /** The record with key `id`, or `None`, exactly as the repository gives it. */
    method GetNpc(id: int) returns (r: Option<Npc>)
      requires repository.Valid()
      ensures r.None? <==> id !in repository.npcs
      ensures r.Some? ==> r.value == repository.npcs[id] && r.value.id == id
    {
      r := repository.GetById(id);
    }

    /** Every stored record, each once. */
    method GetAllNpcs() returns (r: seq<Npc>)
      requires repository.Valid()
      ensures |r| == |repository.npcs|
      ensures forall i :: 0 <= i < |r| ==> r[i].id in repository.npcs && repository.npcs[r[i].id] == r[i]
      ensures forall id :: id in repository.npcs ==> repository.npcs[id] in r
    {
      r := repository.GetAll();
    }

    /** Exactly the stored records at `location`, each once. */
    method GetNpcsByLocation(location: string) returns (r: seq<Npc>)
      requires repository.Valid()
      ensures |r| == |repository.IdsAt(location)|
      ensures forall i :: 0 <= i < |r| ==>
                r[i].id in repository.npcs && repository.npcs[r[i].id] == r[i] && r[i].location == Some(location)
      ensures forall id :: id in repository.npcs && repository.npcs[id].location == Some(location) ==>
                repository.npcs[id] in r
    {
      r := repository.GetByLocation(location);
    }

    /**
     * Rejects creation data whose health is not positive, leaving the store as it was;
     * otherwise stores the record the repository builds and returns it.
     */
    method CreateNpc(c: NpcCreate) returns (r: Result<Npc, ServiceError>)
      requires repository.Valid()
      modifies repository
      ensures repository.Valid()
      ensures old(repository.HealthNonNegative()) ==> repository.HealthNonNegative()
      ensures c.health <= 0 ==> r == Failure(HealthNotPositive) && unchanged(repository)
      ensures c.health > 0 ==>
                && r == Success(FromCreate(old(repository.nextId), c))
                && r.value.id !in old(repository.npcs)
                && repository.npcs == old(repository.npcs)[r.value.id := r.value]
                && repository.nextId == old(repository.nextId) + 1
    {
      if c.health <= 0 {
        return Failure(HealthNotPositive);
      }
      var created := repository.Create(c);
      r := Success(created);
    }

    /**
     * Applies a partial update to an existing record and returns the result; `None`, with the
     * store unchanged, when the id is absent.
     */
    method UpdateNpc(u: NpcUpdate) returns (r: Option<Npc>)
      requires repository.Valid()
      modifies repository
      ensures repository.Valid() && repository.nextId == old(repository.nextId)
      ensures u.id !in old(repository.npcs) ==> r == None && repository.npcs == old(repository.npcs)
      ensures u.id in old(repository.npcs) ==>
                && r == Some(ApplyUpdate(old(repository.npcs)[u.id], u))
                && repository.npcs == old(repository.npcs)[u.id := r.value]
    {
      var existing := repository.GetById(u.id);
      if existing.None? {
        return None;
      }
      r := repository.Update(u);
    }

    /** Deletes an existing record and answers `true`; answers `false`, store unchanged, when absent. */
    method DeleteNpc(id: int) returns (deleted: bool)
      requires repository.Valid()
      modifies repository
      ensures repository.Valid() && repository.nextId == old(repository.nextId)
      ensures old(repository.HealthNonNegative()) ==> repository.HealthNonNegative()
      ensures deleted == (id in old(repository.npcs))
      ensures !deleted ==> repository.npcs == old(repository.npcs)
      ensures deleted ==> repository.npcs == old(repository.npcs) - {id} && id !in repository.npcs
    {
      var existing := repository.GetById(id);
      if existing.None? {
        return false;
      }
      var _ := repository.Delete(id);
      deleted := true;
    }

    /** Moves an existing record to `location` and returns it; `None`, store unchanged, when absent. */
    method MoveNpc(id: int, location: string) returns (r: Option<Npc>)
      requires repository.Valid()
      modifies repository
      ensures repository.Valid() && repository.nextId == old(repository.nextId)
      ensures old(repository.HealthNonNegative()) ==> repository.HealthNonNegative()
      ensures id !in old(repository.npcs) ==> r == None && repository.npcs == old(repository.npcs)
      ensures id in old(repository.npcs) ==>
                && r == Some(old(repository.npcs)[id].(location := Some(location)))
                && repository.npcs == old(repository.npcs)[id := r.value]
    {
      var existing := repository.GetById(id);
      if existing.None? {
        return None;
      }
      r := repository.SetLocation(id, location);
    }

    /**
     * Lowers the health of an existing record by `damage`, never below zero, and returns it;
     * `None`, store unchanged, when absent.
     */
    method ApplyDamage(id: int, damage: int) returns (r: Option<Npc>)
      requires repository.Valid()
      modifies repository
      ensures repository.Valid() && repository.nextId == old(repository.nextId)
      ensures old(repository.HealthNonNegative()) ==> repository.HealthNonNegative()
      ensures id !in old(repository.npcs) ==> r == None && repository.npcs == old(repository.npcs)
      ensures id in old(repository.npcs) ==>
                && r == Some(old(repository.npcs)[id].(health := ClampedHealth(old(repository.npcs)[id].health, damage)))
                && r.value.health >= 0
                && repository.npcs == old(repository.npcs)[id := r.value]
    {
      var npc := repository.GetById(id);
      if npc.None? {
        return None;
      }
      var newHealth := ClampedHealth(npc.value.health, damage);
      r := repository.SetHealth(id, newHealth);
    }
  }
}
