/** A pickup that heals the character overlapping it and then destroys
    itself. HealValue is set when the pickup is placed; whether a particle
    template is configured only decides whether an effect is spawned. */
module Pickup {
  import opened Regeneration
  import opened RPGCharacter

  /** The characters among {other}: none for a null actor. */
  function AsSet(other: Character?): set<Character>
  {
    if other == null then {} else {other}
  }

  class HealthPickup {
    const healValue: real
    const hasParticleTemplate: bool
    /** The pickup has been destroyed (consumed). */
    var destroyed: bool
    /** A particle effect was spawned at the healed character. */
    ghost var effectSpawned: bool

    /** An effect is only ever spawned by a pickup that was consumed. */
    ghost predicate Valid()
      reads this`destroyed, this`effectSpawned
    {
      effectSpawned ==> destroyed && hasParticleTemplate
    }

    constructor (healValue: real, hasParticleTemplate: bool)
      ensures this.healValue == healValue && this.hasParticleTemplate == hasParticleTemplate
      ensures Valid() && !destroyed && !effectSpawned
    {
      this.healValue, this.hasParticleTemplate := healValue, hasParticleTemplate;
      destroyed, effectSpawned := false, false;
    }

    /** The overlap handler of a live pickup. `other` is the overlapping
        actor seen as a character, null when it is not one. A character
        below full health is healed by healValue, capped at full health, and
        the pickup is destroyed, with or without a particle effect; anything
        else leaves both untouched. */
    method PickupEffect(other: Character?)
      requires Valid() && !destroyed
      modifies this`destroyed, this`effectSpawned, AsSet(other)`health
      ensures Valid()
      ensures other == null ==> unchanged(this)
      ensures other != null ==> other.GetHealth() == Replenish(old(other.GetHealth()), healValue)
      ensures other != null ==> (destroyed <==> old(other.GetHealth()) < Full)
      ensures destroyed ==> other != null && other.GetHealth() <= Full
      ensures destroyed && 0.0 <= healValue ==> old(other.GetHealth()) <= other.GetHealth()
      ensures effectSpawned <==> destroyed && hasParticleTemplate
    {
      if other != null {
        var health := other.GetHealth();
        if health < Full {
          health := health + healValue;
          if health > Full {
            health := Full;
          }
          other.SetHealth(health);
          if !hasParticleTemplate {
            destroyed := true;
          } else {
            effectSpawned := true;
            destroyed := true;
          }
        }
      }
    }

    /** Overlap events reach the handler only while the pickup exists: a
        destroyed pickup never heals again. */
    method OnActorBeginOverlap(other: Character?)
      requires Valid()
      modifies this`destroyed, this`effectSpawned, AsSet(other)`health
      ensures Valid()
      ensures old(destroyed) ==> destroyed && unchanged(this) && (other != null ==> other.GetHealth() == old(other.GetHealth()))
      ensures !old(destroyed) && other != null ==> other.GetHealth() == Replenish(old(other.GetHealth()), healValue)
      ensures !old(destroyed) ==> (destroyed <==> other != null && old(other.GetHealth()) < Full)
    {
      if !destroyed {
        PickupEffect(other);
      }
    }
  }
}
