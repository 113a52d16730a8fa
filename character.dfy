/** The playable character's attribute bookkeeping: health and mana with
    passive regeneration, and the one-handed cast gate. The engine's one-shot
    timer that ends a cast is modelled by an explicit "stop timer armed" flag;
    the character-movement component is modelled by a ghost flag. */
module RPGCharacter {
  import opened Regeneration

  /** Mana a one-handed cast needs, and spends when it ends. */
  const SpellCost: real := 0.15
  /** Health a one-handed cast restores when it ends. */
  const SpellHeal: real := 0.15
  /** Seconds between the start of a cast and its end (the animation length). */
  const CastDuration: real := 2.2

  class Character {
    var health: real
    var mana: real
    var casting1H: bool
    const healthRegeneration: real
    const manaRegeneration: real
    const healthRegenerationRate: real
    const manaRegenerationRate: real
    var healthTempTimeHandle: real
    var manaTempTimeHandle: real

    /** The engine timer that ends a cast: armed by a successful cast, it
        fires once, after stopTimerDelay seconds. */
    var stopTimerArmed: bool
    var stopTimerDelay: real
    /** Whether the character-movement component is active. */
    ghost var movementActive: bool

    /** The cast flag is set exactly while the stop timer is pending. */
    ghost predicate Valid()
      reads this`casting1H, this`stopTimerArmed
    {
      casting1H == stopTimerArmed
    }

    /** A cast in progress can pay for itself when it ends. */
    ghost predicate ManaCovered()
      reads this`casting1H, this`mana
    {
      casting1H ==> SpellCost <= mana
    }

    /** Health and mana are both within [0, 1]. */
    ghost predicate AttributesInRange()
      reads this`health, this`mana
    {
      0.0 <= health <= Full && 0.0 <= mana <= Full
    }

    function HealthMeter(): Meter
      reads this`healthTempTimeHandle, this`health
    {
      Meter(healthTempTimeHandle, health)
    }

    function ManaMeter(): Meter
      reads this`manaTempTimeHandle, this`mana
    {
      Meter(manaTempTimeHandle, mana)
    }

    /** A character with the default statistics. */
    constructor ()
      ensures Valid() && ManaCovered() && AttributesInRange()
      ensures health == 0.5 && mana == 0.75 && !casting1H
      ensures healthRegeneration == 0.01 && manaRegeneration == 0.01
      ensures healthRegenerationRate == 1.0 && manaRegenerationRate == 1.0
      ensures healthTempTimeHandle == 0.0 && manaTempTimeHandle == 0.0
      ensures !stopTimerArmed && movementActive
    {
      health, mana, casting1H := 0.5, 0.75, false;
      healthRegeneration, manaRegeneration := 0.01, 0.01;
      healthRegenerationRate, manaRegenerationRate := 1.0, 1.0;
      healthTempTimeHandle, manaTempTimeHandle := 0.0, 0.0;
      stopTimerArmed, stopTimerDelay := false, 0.0;
      movementActive := true;
    }

    /** A character whose statistics were edited away from the defaults. */
    constructor Configured(health: real, mana: real,
                           healthRegeneration: real, manaRegeneration: real,
                           healthRegenerationRate: real, manaRegenerationRate: real)
      ensures Valid() && ManaCovered()
      ensures this.health == health && this.mana == mana && !casting1H
      ensures this.healthRegeneration == healthRegeneration && this.manaRegeneration == manaRegeneration
      ensures this.healthRegenerationRate == healthRegenerationRate
      ensures this.manaRegenerationRate == manaRegenerationRate
      ensures healthTempTimeHandle == 0.0 && manaTempTimeHandle == 0.0
      ensures !stopTimerArmed && movementActive
    {
      this.health, this.mana, casting1H := health, mana, false;
      this.healthRegeneration, this.manaRegeneration := healthRegeneration, manaRegeneration;
      this.healthRegenerationRate, this.manaRegenerationRate := healthRegenerationRate, manaRegenerationRate;
      healthTempTimeHandle, manaTempTimeHandle := 0.0, 0.0;
      stopTimerArmed, stopTimerDelay := false, 0.0;
      movementActive := true;
    }

    function GetHealth(): real
      reads this`health
    {
      health
    }

    method SetHealth(newHealth: real)
      modifies this`health
      ensures GetHealth() == newHealth
    {
      health := newHealth;
    }

    function GetMana(): real
      reads this`mana
    {
      mana
    }

    method SetMana(newMana: real)
      modifies this`mana
      ensures GetMana() == newMana
      ensures ManaCovered() <==> (casting1H ==> SpellCost <= newMana)
    {
      mana := newMana;
    }

    function GetCasting1H(): bool
      reads this`casting1H
    {
      casting1H
    }

    function GetHealthRegeneration(): real
    {
      healthRegeneration
    }

    function GetManaRegeneration(): real
    {
      manaRegeneration
    }

    /** One frame: health and mana each regenerate from their own
        accumulator and parameters; nothing else changes. */
    method Tick(deltaSeconds: real)
      modifies this`healthTempTimeHandle, this`health, this`manaTempTimeHandle, this`mana
      ensures HealthMeter() == Advance(old(HealthMeter()), healthRegeneration, healthRegenerationRate, deltaSeconds)
      ensures ManaMeter() == Advance(old(ManaMeter()), manaRegeneration, manaRegenerationRate, deltaSeconds)
      ensures old(ManaCovered()) && 0.0 <= manaRegeneration ==> ManaCovered()
      ensures old(AttributesInRange()) && 0.0 <= healthRegeneration && 0.0 <= manaRegeneration
              ==> AttributesInRange()
    {
      healthTempTimeHandle, health :=
        PassiveRegeneration(healthTempTimeHandle, health, healthRegeneration, healthRegenerationRate, deltaSeconds);
      manaTempTimeHandle, mana :=
        PassiveRegeneration(manaTempTimeHandle, mana, manaRegeneration, manaRegenerationRate, deltaSeconds);
    }

    /** One attribute's regeneration for a frame of deltaSeconds. The time
        accumulator and the attribute are passed in and handed back, as the
        engine code passes them by reference. */
    static method PassiveRegeneration(tempTimeHandle: real, attribute: real, attributeRegeneration: real,
                                      attributeRegenerationRate: real, deltaSeconds: real)
      returns (newTimeHandle: real, newAttribute: real)
      ensures Meter(newTimeHandle, newAttribute)
              == Advance(Meter(tempTimeHandle, attribute), attributeRegeneration, attributeRegenerationRate, deltaSeconds)
      ensures tempTimeHandle + deltaSeconds < attributeRegenerationRate
              ==> newTimeHandle == tempTimeHandle + deltaSeconds && newAttribute == attribute
      ensures attributeRegenerationRate <= tempTimeHandle + deltaSeconds ==> newTimeHandle == 0.0
      ensures attributeRegenerationRate <= tempTimeHandle + deltaSeconds && attribute < Full
              ==> newAttribute == Min(attribute + attributeRegeneration, Full) && newAttribute <= Full
      ensures Full <= attribute ==> newAttribute == attribute
      ensures 0.0 <= attributeRegeneration ==> attribute <= newAttribute
    {
      newTimeHandle := tempTimeHandle + deltaSeconds;
      newAttribute := attribute;
      if attributeRegenerationRate <= newTimeHandle {
        newTimeHandle := 0.0;
        if newAttribute < Full {
          newAttribute := newAttribute + attributeRegeneration;
          if newAttribute > Full {
            newAttribute := Full;
          }
        }
      }
    }

    /** Start a one-handed cast if none is in progress and there is mana for
        it. Mana and health are not touched here: they change when the cast
        ends. */
    method CastSpell1H()
      requires Valid()
      modifies this`casting1H, this`stopTimerArmed, this`stopTimerDelay, this`movementActive
      ensures Valid()
      ensures old(casting1H) || mana < SpellCost ==> unchanged(this)
      ensures !old(casting1H) && SpellCost <= mana
              ==> GetCasting1H() && stopTimerArmed && stopTimerDelay == CastDuration && !movementActive
      ensures old(ManaCovered()) ==> ManaCovered()
    {
      if !casting1H && mana >= SpellCost {
        movementActive := false;
        casting1H := true;
        stopTimerArmed, stopTimerDelay := true, CastDuration;
      }
    }

    /** The end of a cast, run once by the stop timer: the flag clears, the
        cast's mana is spent and its health restored, without any cap. */
    method StopCastingSpell1H()
      requires Valid() && stopTimerArmed
      modifies this`casting1H, this`mana, this`health, this`stopTimerArmed, this`movementActive
      ensures Valid() && !GetCasting1H() && !stopTimerArmed && movementActive
      ensures GetMana() == old(GetMana()) - SpellCost
      ensures GetHealth() == old(GetHealth()) + SpellHeal
      ensures old(ManaCovered()) ==> 0.0 <= GetMana()
    {
      stopTimerArmed := false;
      casting1H := false;
      mana := mana - SpellCost;
      health := health + SpellHeal;
      movementActive := true;
    }
  }
}
