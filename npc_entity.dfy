/** The NPC record as the store keeps it, and the damage rule applied to its health. */
module NpcEntity {
  import opened Wrappers

  /** One non-player character. `id` is assigned by the store; `location` is absent when unset. */
  datatype Npc = Npc(
    id: int,
    name: string,
    description: string,
    health: int,
    strength: int,
    agility: int,
    intelligence: int,
    dialogue: seq<string>,
    isHostile: bool,
    location: Option<string>)

  /**
   * Health after `damage`, clamped below at zero (`max(0, health - damage)`).
   * The result is never negative, never below the unclamped value, and is one of the two.
   */
  function ClampedHealth(health: int, damage: int): (r: int)
    ensures r >= 0
    ensures r >= health - damage
    ensures r == 0 || r == health - damage
  {
    if health - damage > 0 then health - damage else 0
  }

  /** Damage 0 leaves a non-negative health as it was. */
  lemma ZeroDamageKeepsHealth(health: int)
    requires health >= 0
    ensures ClampedHealth(health, 0) == health
  {
  }

  /** Non-negative damage never raises a non-negative health. */
  lemma DamageNeverHeals(health: int, damage: int)
    requires health >= 0 && damage >= 0
    ensures ClampedHealth(health, damage) <= health
  {
  }

  /** Two hits, the second non-negative, leave the same health as one hit of their sum. */
  lemma DamageAccumulates(health: int, first: int, second: int)
    requires second >= 0
    ensures ClampedHealth(ClampedHealth(health, first), second) == ClampedHealth(health, first + second)
  {
  }

  /** Negative damage is not rejected: it raises health, with no upper cap. */
  lemma NegativeDamageHeals(health: int, damage: int)
    requires health >= 0 && damage < 0
    ensures ClampedHealth(health, damage) == health - damage > health
  {
  }
}
