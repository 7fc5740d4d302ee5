/** What the service answers on fresh stores, stated as verified postconditions of each call. */
module NpcScenarios {
  import opened Wrappers
  import opened NpcEntity
  import opened NpcDtos
  import opened NpcRepositories
  import opened NpcServices

  /**
   * A goblin with 10 health is created with id 1; 15 damage leaves it at 0, 5 more keeps it
   * at 0; moving an id that was never created answers "not found".
   */
  method GoblinScenario() returns (created: Result<Npc, ServiceError>, hit: Option<Npc>,
                                    hitAgain: Option<Npc>, moved: Option<Npc>)
    ensures created.Success? && created.value.id == 1 && created.value.health == 10
    ensures hit.Some? && hit.value.health == 0
    ensures hitAgain.Some? && hitAgain.value.health == 0
    ensures moved.None?
  {
    var store := new NpcRepository();
    var service := new NpcService(store);
    created := service.CreateNpc(NpcCreate("Goblin", "A small raider", 10, 3, 5, 1, [], true, None));
    hit := service.ApplyDamage(1, 15);
    hitAgain := service.ApplyDamage(1, 5);
    moved := service.MoveNpc(999, "forest");
  }

  /** Creation with zero health is rejected and stores nothing. */
  method RejectedCreationScenario() returns (created: Result<Npc, ServiceError>, all: seq<Npc>)
    ensures created == Failure(HealthNotPositive)
    ensures all == []
  {
    var store := new NpcRepository();
    var service := new NpcService(store);
    created := service.CreateNpc(NpcCreate("Ghost", "", 0, 1, 1, 1, [], false, None));
    all := service.GetAllNpcs();
  }

  /** Deleting the same record twice answers `true`, then `false`; afterwards it cannot be found. */
  method DeleteTwiceScenario() returns (first: bool, second: bool, found: Option<Npc>)
    ensures first && !second
    ensures found.None?
  {
    var store := new NpcRepository();
    var service := new NpcService(store);
    var created := service.CreateNpc(NpcCreate("Merchant", "", 20, 2, 2, 8, ["Welcome!"], false, Some("town")));
    first := service.DeleteNpc(1);
    second := service.DeleteNpc(1);
    found := service.GetNpc(1);
  }

  /**
   * Renaming a record through a partial update changes its name only; damage 0 then leaves
   * its health as it was, and it is still listed at its location.
   */
  method RenameScenario() returns (renamed: Option<Npc>, unhurt: Option<Npc>, here: seq<Npc>)
    ensures renamed.Some? && renamed.value.name == "Old Guard"
    ensures renamed.value.health == 30 && renamed.value.location == Some("gate")
    ensures unhurt.Some? && unhurt.value.health == 30
    ensures |here| == 1 && here[0].name == "Old Guard"
  {
    var store := new NpcRepository();
    var service := new NpcService(store);
    var created := service.CreateNpc(NpcCreate("Guard", "", 30, 7, 4, 3, [], true, Some("gate")));
    renamed := service.UpdateNpc(NpcUpdate(1, Some("Old Guard"), None, None, None, None, None, None, None, None));
    unhurt := service.ApplyDamage(1, 0);
    here := service.GetNpcsByLocation("gate");
    assert store.IdsAt("gate") == {1};
  }
}
