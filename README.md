# RPGProject character attributes, in Dafny

This project models the gameplay bookkeeping of the RPGProject action-RPG
prototype (an Unreal Engine game): the playable character's health and mana,
their passive regeneration, the one-handed spell-cast gate, and the health
pickup that heals a character on overlap. Health and mana are fractions of
their maximum, 1.0 meaning 100%. All quantities are Dafny `real`s (exact
rationals), so the constants are exactly 0.15, 2.2, 0.01, 0.5 and 0.75.

- `regeneration.dfy`, module `Regeneration`: the pure rules. `Replenish` is the
  gain rule shared by regeneration and the pickup (below 100%, add and cap at
  100%; at or above 100%, leave alone). `Meter` pairs an attribute with its
  time accumulator, `Advance` is one frame of regeneration, and `AdvanceAll`,
  `FireCount` and `Sum` follow a whole sequence of frames, about which the
  lemmas are stated.
- `character.dfy`, module `RPGCharacter`: class `Character`, with the
  character's fields and defaults, its getters and setters, `Tick`,
  `PassiveRegeneration`, `CastSpell1H` and `StopCastingSpell1H`. The C++
  `PassiveRegeneration` updates its accumulator and attribute through
  references; here it is a static method that takes both and hands both back,
  and `Tick` assigns them to the fields. The engine's one-shot cast timer is
  the field `stopTimerArmed` (with its delay `stopTimerDelay`): a successful
  cast arms it, and `StopCastingSpell1H` is the timer firing, so it requires
  the timer to be armed and disarms it. Nothing else calls
  `StopCastingSpell1H`: its input binding is commented out in the source.
  The class invariant `Valid` says that `casting1H` is set exactly while the
  timer is armed; `ManaCovered` says that a cast in progress can pay for itself.
- `health_pickup.dfy`, module `Pickup`: class `HealthPickup`. `HealValue` is
  not declared in the header that declares the pickup, so it is a constructor
  parameter; whether a particle template is configured is another.
  `PickupEffect` takes the overlapping actor already cast to a character
  (`null` when it is not one). `OnActorBeginOverlap` is the overlap event the
  handler is bound to in `BeginPlay`: the engine delivers it only to a pickup
  that has not been destroyed.

Three behaviours of the code are easy to expect otherwise; the model keeps
the code's behaviour:
- A cast might be expected to pay its mana and give a capped heal when it
  starts. In the code nothing changes at the start; at the end,
  `StopCastingSpell1H` subtracts 0.15 mana and adds 0.15 health with no cap,
  so health can end above 1.0.
- Health and mana might be expected never to leave [0, 1]. In the code this
  holds for regeneration alone when the regeneration amounts are non-negative
  (`AdvanceAllStaysInRange`, and `Tick` keeps `AttributesInRange`); a negative
  amount, which the editable statistics allow, can take an attribute below 0.
  It does not hold across the end of a cast, nor across `SetHealth` and
  `SetMana`, which store any value.
- A cast might be expected never to take mana below 0. In the code this holds
  when nothing lowers the mana while the cast runs: `ManaCovered` is
  established by a successful cast, kept by `Tick` when mana regeneration is
  non-negative, and gives `0 <= mana` after `StopCastingSpell1H`; a `SetMana`
  during the cast can break it.

Regeneration resets the time accumulator to 0 when it fires instead of
subtracting the interval, so whatever a frame overshoots the interval by is
discarded. Regeneration therefore fires at most once per interval of elapsed
time (`FiringsNeedElapsedTime`) and at least once whenever a full interval
accumulates (`ReachingIntervalFires`), but not once per interval on average:
with uneven frames it runs slower than the amount per interval
(`OvershootIsDiscarded`).

## Model

| member | source | states |
|---|---|---|
| `Regeneration.Replenish` | RPGProject/Source/RPGProject/RPGProjectCharacter.cpp:106-112 | below 1.0 the result is min(value + amount, 1.0), so never above 1.0, and not below the value when the amount is non-negative; at or above 1.0 the value is returned unchanged |
| `Regeneration.AdvanceAllKeepsCap` | RPGProject/Source/RPGProject/RPGProjectCharacter.cpp:100-115 | over any sequence of frames, an attribute starting at most 1.0 stays at most 1.0, whatever the regeneration amount |
| `Regeneration.AdvanceAllNeverLowers` | RPGProject/Source/RPGProject/RPGProjectCharacter.cpp:106-112 | with a non-negative regeneration amount, no sequence of frames lowers the attribute |
| `Regeneration.AdvanceAllStaysInRange` | RPGProject/Source/RPGProject/RPGProjectCharacter.cpp:92-115 | an attribute starting in [0, 1] stays in [0, 1] over any sequence of frames when its regeneration amount is non-negative |
| `Regeneration.AdvanceAllElapsedBelowRate` | RPGProject/Source/RPGProject/RPGProjectCharacter.cpp:102-105 | with a positive interval and non-negative frame durations, the accumulator stays in [0, interval) after every frame |
| `Regeneration.FiringsNeedElapsedTime` | RPGProject/Source/RPGProject/RPGProjectCharacter.cpp:102-105 | regeneration fires at most once per interval of accumulated time: firings times the interval, plus what remains in the accumulator, is at most the initial accumulator plus the total frame time |
| `Regeneration.ReachingIntervalFires` | RPGProject/Source/RPGProject/RPGProjectCharacter.cpp:102-105 | with frames of non-negative duration, an accumulator below the interval that the frames carry to the interval or beyond makes regeneration fire at least once |
| `Regeneration.OvershootIsDiscarded` | RPGProject/Source/RPGProject/RPGProjectCharacter.cpp:102-105 | because the accumulator resets to 0, frames of 0.7, 0.7 and 0.6 s (2.0 s in all) fire only once at a 1.0 s interval, leaving the attribute at 0.55 and the accumulator at 0.6 |
| `Regeneration.RegenerationExample` | RPGProject/Source/RPGProject/RPGProjectCharacter.cpp:100-115 | at 0.5 with 0.05 per 1.0 s, frames adding up to 1.0 s give 0.55 and one more second gives 0.60, with the accumulator back at 0 |
| `RPGCharacter.Character.constructor` | RPGProject/Source/RPGProject/RPGProjectCharacter.h:24-51 | initial state: health 0.5, mana 0.75, not casting, both regeneration amounts 0.01, both intervals 1.0, both accumulators 0, no stop timer armed |
| `RPGCharacter.Character.Configured` | RPGProject/Source/RPGProject/RPGProjectCharacter.h:26-45 | editor-set health, mana, regeneration amounts and intervals are stored as given; accumulators start at 0 and no cast is in progress |
| `RPGCharacter.Character.SetHealth` | RPGProject/Source/RPGProject/RPGProjectCharacter.h:65-68 | afterwards `GetHealth()` returns exactly the value set, unclamped; the frame allows no other field to change |
| `RPGCharacter.Character.SetMana` | RPGProject/Source/RPGProject/RPGProjectCharacter.h:71-74 | afterwards `GetMana()` returns exactly the value set, unclamped; no other field changes; a cast in progress stays covered exactly when the new mana is at least 0.15 |
| `RPGCharacter.Character.GetHealth` | RPGProject/Source/RPGProject/RPGProjectCharacter.h:64-65 | returns the health field; a function, so it changes nothing |
| `RPGCharacter.Character.GetMana` | RPGProject/Source/RPGProject/RPGProjectCharacter.h:70-71 | returns the mana field; a function, so it changes nothing |
| `RPGCharacter.Character.GetCasting1H` | RPGProject/Source/RPGProject/RPGProjectCharacter.h:76-77 | returns the cast flag; a function, so it changes nothing |
| `RPGCharacter.Character.GetHealthRegeneration` | RPGProject/Source/RPGProject/RPGProjectCharacter.h:79-80 | returns the configured health regeneration amount, a `const` field no operation changes |
| `RPGCharacter.Character.GetManaRegeneration` | RPGProject/Source/RPGProject/RPGProjectCharacter.h:82-83 | returns the configured mana regeneration amount, a `const` field no operation changes |
| `RPGCharacter.Character.Tick` | RPGProject/Source/RPGProject/RPGProjectCharacter.cpp:92-98 | health advances with the health amount, interval and accumulator and mana with the mana ones, independently; the cast flag and timer do not change; a covered cast stays covered and attributes in [0, 1] stay there when the amounts are non-negative |
| `RPGCharacter.Character.PassiveRegeneration` | RPGProject/Source/RPGProject/RPGProjectCharacter.cpp:100-115 | below the interval the accumulator grows by the frame time and the attribute is unchanged; at the interval the accumulator resets to exactly 0 and an attribute below 1.0 becomes min(value + amount, 1.0); one at or above 1.0 is unchanged; a non-negative amount never lowers it |
| `RPGCharacter.Character.CastSpell1H` | RPGProject/Source/RPGProject/RPGProjectCharacter.cpp:118-132 | while casting, or with mana below 0.15, nothing changes; otherwise the cast flag is set, the 2.2 s stop timer is armed and movement is stopped, with mana and health unchanged |
| `RPGCharacter.Character.StopCastingSpell1H` | RPGProject/Source/RPGProject/RPGProjectCharacter.cpp:134-141 | the cast flag clears, the timer is disarmed, movement resumes, mana drops by exactly 0.15 and health rises by exactly 0.15 with no cap; a covered cast leaves mana at least 0 |
| `Pickup.HealthPickup.constructor` | RPGProject/Source/RPGProject/HealthPickup.cpp:12-26 | a new pickup is live, has spawned no effect, and holds the given heal value and particle-template setting |
| `Pickup.HealthPickup.PickupEffect` | RPGProject/Source/RPGProject/HealthPickup.cpp:44-79 | a non-character changes nothing; a character at or above 1.0 health is untouched and the pickup survives; one below 1.0 ends at min(health + heal, 1.0) and the pickup is destroyed, with or without a particle template, an effect being spawned exactly when a template is set |
| `Pickup.HealthPickup.OnActorBeginOverlap` | RPGProject/Source/RPGProject/HealthPickup.cpp:29-35 | a destroyed pickup changes nothing, so it never heals again; a live one behaves as `PickupEffect` |

## Left out

- Input binding, movement, turning, looking up, touch and VR handlers, the
  camera boom and follow camera, and the collision capsules: engine calls with
  no state of this model. The movement component appears only as the ghost
  flag `movementActive`, cleared when a cast starts and set when it ends.
- The engine timer's wall-clock scheduling: the stop timer is a flag and a
  delay, and its firing is a call of `StopCastingSpell1H`. A character
  destroyed while its timer is pending is not modelled.
- Particle spawning, the warning log and the forced garbage collection of the
  pickup: only "destroyed" and the ghost flag `effectSpawned` remain.
- The player controller: it has an empty `BeginPlay` and an accessor that only
  casts the possessed pawn.
- 32-bit float rounding: every quantity is an exact real, so the accumulated
  error of repeated small additions is not captured.
- `Casting1H` has no initialiser in the header; the engine zero-initialises
  actor members, so both constructors start it at false.
