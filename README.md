# NPC store and service — a Dafny model

This project models the core of a game backend that manages non-player characters (NPCs).
An NPC record has an id, a name, a description, a health value, three attributes
(strength, agility, intelligence), lines of dialogue, a hostility flag and an optional location.
The model covers three layers:

- **The repository contract and its storage adapter.** `NpcRepositories.NpcRepository` is
  one class. It holds a `map<int, Npc>` in place of the `npcs` table and a counter `nextId`
  in place of the table's auto-increment id. Its methods carry the interface's names
  (`get_by_id`, `get_all`, `get_by_location`, `create`, `update`, `delete`, `set_location`,
  `set_health`). It also has the adapter's `apply_damage`. The adapter's bodies give the
  meaning: an absent id gives `None` (or `false` for delete) and changes nothing; a partial
  update copies only the supplied fields; damage is clamped at zero. Each mutating method
  says which map entry changes and that nothing else does.
- **The request shapes** (`NpcDtos`). These are the creation record (no id) and the partial
  update (id required, every other field an `Option`). A partial update is given two
  readings, and a lemma proves they agree:
  - `SetFields` is the list of supplied (field, value) pairs that the adapter copies onto a
    record one at a time (`CopySetFields`).
  - `ApplyUpdate` is the field-wise meaning: supplied fields take the new value, the rest
    keep theirs.
- **The service** (`NpcServices.NpcService`). Each mutating operation first looks the id up.
  It answers "not found" without touching the store when the id is absent, and otherwise
  delegates. Creation rejects health `<= 0` with `HealthNotPositive`. Damage is
  `max(0, health - damage)` (`NpcEntity.ClampedHealth`). Create, delete, move and damage all
  preserve "no stored record has negative health".

`NpcScenarios` states, as verified postconditions, what the service answers on fresh stores:
a goblin created with 10 health, hit for 15 and then for 5, ends at 0; moving an unknown id
answers "not found"; a record deleted twice answers `true`, then `false`; a rename changes
only the name.

Where the interface and the adapter disagree, the model follows the adapter's code:
- `delete` returns whether a record was removed. The interface declares no result at
  `src/src/core/repositories/npcRepository/npcRepository.py:33`. The service ignores the
  result either way.
- Health is meant never to be negative. The code only keeps that on
  create, move, delete and damage. A partial update and `set_health` store whatever health
  they are given, so `Update`, `SetHealth` and `UpdateNpc` promise nothing about it.
  `ZeroDamageKeepsHealth` requires a non-negative health for this reason: on a record
  stored with negative health, damage 0 resets health to 0 (`ClampedHealth(-5, 0) == 0`).

## Model

| member | source | states |
|---|---|---|
| `NpcEntity.ClampedHealth` | src/src/core/services/npcService/npcService.py:59 | health after damage is never negative, never below `health - damage`, and is one of `0` or `health - damage` |
| `NpcEntity.ZeroDamageKeepsHealth` | src/src/core/services/npcService/npcService.py:59 | damage 0 leaves a non-negative health unchanged |
| `NpcEntity.DamageNeverHeals` | src/src/core/services/npcService/npcService.py:59 | non-negative damage never raises a non-negative health |
| `NpcEntity.DamageAccumulates` | src/src/core/services/npcService/npcService.py:59 | two hits (the second non-negative) clamp to the same health as one hit of their sum |
| `NpcEntity.NegativeDamageHeals` | src/src/core/services/npcService/npcService.py:59 | negative damage is not rejected: it raises health, with no cap |
| `NpcDtos.FromCreate` | src/src/infrastructure/db/repository/npcRepositoryBD.py:36 | the new record carries the assigned id and exactly the creation data |
| `NpcDtos.FromCreateToCreate` | src/src/core/repositories/npcRepository/dto/NPCCreateDTO.py:5-15 | a record is rebuilt exactly from its id and its creation data |
| `NpcDtos.SetFieldsSupplied` | src/src/infrastructure/db/repository/npcRepositoryBD.py:49 | the supplied pairs start with the id and hold a pair exactly when the update supplies it (`Name(v)` is present iff `u.name == Some(v)`, and so on for each attribute) |
| `NpcDtos.Assign` | src/src/infrastructure/db/repository/npcRepositoryBD.py:50 | setting one attribute is the partial update that supplies that pair alone: that attribute takes the value, every other attribute is kept |
| `NpcDtos.ApplyUpdate` | src/src/infrastructure/db/repository/npcRepositoryBD.py:49-50 | the updated record holds a value exactly when the update supplies it, or leaves that attribute unset and the old record held it |
| `NpcDtos.AssignAllConcat` | src/src/infrastructure/db/repository/npcRepositoryBD.py:49-50 | copying the pairs of `a + b` is copying those of `a`, then those of `b` |
| `NpcDtos.AssignAllSetFields` | src/src/infrastructure/db/repository/npcRepositoryBD.py:49-50 | copying the supplied (field, value) pairs one by one gives the field-wise update: supplied fields replaced, unsupplied ones kept |
| `NpcDtos.NameOnlyUpdate` | src/src/infrastructure/db/repository/npcRepositoryBD.py:49-50 | an update supplying only a name changes the name and no other field |
| `NpcDtos.EmptyUpdateKeepsRecord` | src/src/infrastructure/db/repository/npcRepositoryBD.py:49-50 | an update supplying nothing but the record's own id leaves the record as it was |
| `NpcDtos.UpdateIdempotent` | src/src/infrastructure/db/repository/npcRepositoryBD.py:49-50 | applying the same partial update twice equals applying it once |
| `NpcRepositories.CopySetFields` | src/src/infrastructure/db/repository/npcRepositoryBD.py:49-50 | the set-attribute loop over the supplied fields yields `ApplyUpdate(npc, u)` |
| `NpcRepositories.NpcRepository.constructor` | src/src/infrastructure/db/enttities/npc.py:12 | an empty store whose first record gets id 1 |
| `NpcRepositories.NpcRepository.GetById` | src/src/infrastructure/db/repository/npcRepositoryBD.py:16-20 | `None` exactly when no record has the id; otherwise the stored record, whose id is that id |
| `NpcRepositories.NpcRepository.GetAll` | src/src/infrastructure/db/repository/npcRepositoryBD.py:22-26 | every element is a stored record, every stored record is listed, and the count equals the number of records |
| `NpcRepositories.NpcRepository.GetByLocation` | src/src/infrastructure/db/repository/npcRepositoryBD.py:28-32 | exactly the stored records whose location equals the argument, as many as there are such records |
| `NpcRepositories.NpcRepository.Create` | src/src/infrastructure/db/repository/npcRepositoryBD.py:34-40 | always returns a full record built from the creation data under an id not in use; adds that one entry; all other records unchanged |
| `NpcRepositories.NpcRepository.Update` | src/src/infrastructure/db/repository/npcRepositoryBD.py:42-54 | absent id: `None`, store unchanged; present: only that entry changes, to the field-wise update, which is returned |
| `NpcRepositories.NpcRepository.Delete` | src/src/infrastructure/db/repository/npcRepositoryBD.py:56-65 | result is whether the id was present; exactly that key is removed; absent id leaves the store unchanged |
| `NpcRepositories.NpcRepository.SetLocation` | src/src/infrastructure/db/repository/npcRepositoryBD.py:67-77 | absent id: `None`, unchanged; present: only that record's location changes |
| `NpcRepositories.NpcRepository.SetHealth` | src/src/core/repositories/npcRepository/npcRepository.py:42-45 | absent id: `None`, unchanged; present: the given health is stored as is (no clamping) and nothing else changes |
| `NpcRepositories.NpcRepository.ApplyDamage` | src/src/infrastructure/db/repository/npcRepositoryBD.py:79-89 | absent id: `None`, unchanged; present: health becomes `max(0, health - damage)`, never negative; the store keeps non-negative health |
| `NpcServices.NpcService.constructor` | src/src/core/services/npcService/npcService.py:10-11 | the service delegates to the repository it is given |
| `NpcServices.NpcService.GetNpc` | src/src/core/services/npcService/npcService.py:13-15 | passes the repository's lookup through; modifies nothing |
| `NpcServices.NpcService.GetAllNpcs` | src/src/core/services/npcService/npcService.py:17-19 | passes the full listing through; modifies nothing |
| `NpcServices.NpcService.GetNpcsByLocation` | src/src/core/services/npcService/npcService.py:21-23 | passes the location filter through; modifies nothing |
| `NpcServices.NpcService.CreateNpc` | src/src/core/services/npcService/npcService.py:25-29 | health `<= 0`: `HealthNotPositive` and the store is untouched; otherwise exactly what the repository's create returns, under a fresh id |
| `NpcServices.NpcService.UpdateNpc` | src/src/core/services/npcService/npcService.py:31-36 | absent id: `None`, store unchanged; present: the repository's partial update of that record only |
| `NpcServices.NpcService.DeleteNpc` | src/src/core/services/npcService/npcService.py:38-44 | absent id: `false`, store unchanged; present: that id removed and `true` |
| `NpcServices.NpcService.MoveNpc` | src/src/core/services/npcService/npcService.py:46-51 | absent id: `None`, store unchanged; present: only that record's location changes |
| `NpcServices.NpcService.ApplyDamage` | src/src/core/services/npcService/npcService.py:53-60 | absent id: `None`, store unchanged; present: health set to `max(0, old - damage)`, never negative, nothing else changes |
| `NpcScenarios.GoblinScenario` | src/src/core/services/npcService/npcService.py:53-60 | goblin created with id 1 and health 10; damage 15 gives 0, damage 5 more keeps 0; moving id 999 is "not found" |
| `NpcScenarios.RejectedCreationScenario` | src/src/core/services/npcService/npcService.py:25-29 | creation with health 0 fails and nothing is stored |
| `NpcScenarios.DeleteTwiceScenario` | src/src/core/services/npcService/npcService.py:38-44 | deleting the same id twice answers `true`, then `false`, and the record is gone |
| `NpcScenarios.RenameScenario` | src/src/core/services/npcService/npcService.py:31-36 | a name-only update keeps health and location; damage 0 keeps health; the record is still listed at its location |

## Left out

- Asynchronous execution and the session mechanics: `await`, `execute`, `commit`, `refresh` and `from_orm`. The store is a map, and each call runs to completion before the next.
- The race between the service's existence check and its mutation. The model is sequential, so two interleaved calls cannot lose an update here.
- Store failures (connectivity or constraint errors). They propagate unchanged in the code and are not modelled. Every repository call here succeeds.
- The HTTP controller, its 404 mapping and its construction of a service per request.
- The table declaration in `src/src/infrastructure/db/enttities/npc.py`. It has no `description`, `dialogue` or `is_hostile` column, and it gives `location` a default of `"unknown"`. The model stores the full domain record (`src/src/core/entities/npcEntity/npc.py`), so the table's refusal of the extra creation fields is not captured.
- The mechanism that finds the supplied fields. The adapter calls `.dict(exclude_unset=True)` on the update (`src/src/infrastructure/db/repository/npcRepositoryBD.py:49`) and `.dict()` on the creation record (line 36). That reading assumes pydantic-style tracking of which fields were set. Both records are plain dataclasses (`src/src/core/repositories/npcRepository/dto/NPCUpdateDTO.py:5`, `NPCCreateDTO.py:4`), which have no `.dict`, so these calls as written would raise `AttributeError`. The model gives the intended meaning instead: an update supplies exactly its `Some` fields.
- Explicitly supplying `None` for an update field other than `location`. Set-field tracking would copy it, but the record cannot hold it. For `location`, the model follows the domain record (`src/src/core/entities/npcEntity/npc.py:15`), whose location is optional. There `Some(None)` clears the location and `None` leaves it alone. The table declares `location` non-nullable (`src/src/infrastructure/db/enttities/npc.py:18`), so it would refuse a cleared location.
- The adapter's method names (`get_npc`, `create_npc`, …) and its base class `INPCRepository`, which is never imported. The model has one class under the interface's names.
- The order of `get_all` and `get_by_location`. None is promised. The model scans ids in ascending order, but no contract states an order.
- Integer width. Ids and health are unbounded integers, with no 32-bit column limit.
- NpcRepositories.NpcRepository.Update: does not promise non-negative health, because the code stores any supplied health unchecked.
- NpcRepositories.NpcRepository.SetHealth: does not promise non-negative health, because the interface stores the given value as is.
- NpcServices.NpcService.UpdateNpc: does not promise non-negative health, because it delegates an unchecked update.
