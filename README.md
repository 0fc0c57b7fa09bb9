# RPG tournament: a verified model

RPGsaga runs a knock-out tournament of fighters of three classes: Paladin, Ranger and
Sorcerer. Every fighter has health, strength and a list of timed status effects (burn,
freeze, stun). Each may shoot ice arrows once per battle and has a class ability:

- the Paladin's retribution strike;
- the Ranger's fire arrows, then two ice shots;
- the Sorcerer's charm, which stuns.

Each round the game engine shuffles the roster and cuts it into pairs. Each pair fights a
turn-based battle driven by a random source, then the dead are dropped and the survivors
are reset. This goes on until one fighter is left.

The model has nine modules:

- `Outcomes` holds the `Option`, `Result` and `Outcome` datatypes.
- `StatusEffects` has the datatype `Effect` and the class `StatusEffect`. The class keeps an
  effect's fields and updates them in place. Each of its methods is proved against the
  matching `Effect` function.
- `FighterStates` has the value of a fighter (`FighterState`) and every fighter rule as a
  function: damage, healing, applying, stacking and removing effects, the status pass,
  reset, ice arrows and the three class abilities.
- `FighterLaws` holds the lemmas about those functions.
- `Fighters` has the class `Fighter`. Its fields are updated in place by its methods, and
  each method is proved against the matching `FighterStates` function. The three classes
  of fighter are one class with a `Variant` field that holds each class's own counters.
- `Shuffles` has the engine's Fisher–Yates shuffle. It is an in-place loop on an array,
  proved against a function, and lemmas show that it permutes.
- `Tournaments` has the engine's behaviour on values: one turn, a battle, the battles of a
  round, a round, and the tournament.
- `Engine` has the class `GameEngine`. Its roster, round counter and draw position are
  fields. Each method is proved against the matching `Tournaments` function.
- `TournamentLaws` proves what the tournament does under fixed kinds of random source:
  - stalemates;
  - double knock-outs;
  - termination of plain battles;
  - a champion for 2^k plain fighters;
  - an odd roster for six.

The random source `rng()` is an oracle `rng: nat -> real`: its c-th call returns
`rng(c)`. The engine keeps the count of draws read so far in `cursor`. A battle need not
end, so it is modelled with a bound `fuel` on its number of passes and returns `None`
when the bound runs out. The engine's methods take that bound as a ghost parameter. They
require that the specification function finishes within it.

The code is followed where it is unusual:

- `sufferDamage` reports the clamped amount, not the health lost.
- `restoreHealth` accepts a negative amount.
- The generic `useIceArrows` keeps its limit of one shot per battle for the Ranger too.
  The Ranger's own two ice shots come only through its class ability. A test's name in
  `src/__tests__/ice-arrows-usage.test.ts` suggests two uses of `useIceArrows`, but that
  test only checks that both calls report the strength. Under the code the second call
  is a plain attack, which also reports the strength.
- In a status pass where both fighters die, `fighter1` is dead and so `fighter2` is named
  winner.
- A roster that becomes odd cannot be paired. Six fighters pass the size check, and when
  every battle of the first round has a survivor, three are left
  (`TournamentLaws.SixFighters` shows this for plain fighters under draws of one half or
  more). A double knock-out can leave an even number instead. For an odd roster the
  source pairs the last fighter with `undefined` and throws a `TypeError` when it records
  that battle's start. The model returns `Failure(OddRoster)` instead.
- A round that leaves nobody alive makes `runTournament` pass `undefined` to
  `recordFinalVictory`, which throws a `TypeError` when it reads the champion's info. The
  source never returns an undefined champion. The model returns `Failure(NoChampion)`.

## Model

| member | source | states |
|---|---|---|
| StatusEffects.Effect.IncrementDamage | src/status/StatusEffect.ts:47-49 | the damage per turn rises by exactly the amount; kind, turns and activity are unchanged |
| StatusEffects.Effect.SetMaximumDuration | src/status/StatusEffect.ts:52-54 | the duration becomes the larger of the current one and the argument; nothing else changes |
| StatusEffects.Effect.DecrementTurns | src/status/StatusEffect.ts:57-59 | one turn fewer, possibly below zero; nothing else changes |
| StatusEffects.Effect.Deactivate | src/status/StatusEffect.ts:62-64 | the effect is inactive and otherwise unchanged |
| StatusEffects.Effect.CalculateDamage | src/status/StatusEffect.ts:76-81 | the damage per turn when active with turns left, zero otherwise |
| StatusEffects.Effect.Merge | src/fighters/BaseFighter.ts:91-105 | the stacking of two freezes: damages add up and the longer duration wins |
| StatusEffects.DeactivateIdempotent | src/status/StatusEffect.ts:62-64 | deactivating twice equals deactivating once, and an inactive effect deals nothing |
| StatusEffects.SetMaximumDurationIdempotent | src/status/StatusEffect.ts:52-54 | raising the duration twice equals raising it once; a shorter duration changes nothing |
| StatusEffects.StatusEffect.constructor | src/status/StatusEffect.ts:23-32 | the fields hold the given kind, turns, damage (default 0) and activity (default true) |
| StatusEffects.StatusEffect.IncrementDamage | src/status/StatusEffect.ts:47-49 | the new field values are the `Effect` function of the old ones |
| StatusEffects.StatusEffect.SetMaximumDuration | src/status/StatusEffect.ts:52-54 | the new field values are the `Effect` function of the old ones |
| StatusEffects.StatusEffect.DecrementTurns | src/status/StatusEffect.ts:57-59 | the new field values are the `Effect` function of the old ones |
| StatusEffects.StatusEffect.Deactivate | src/status/StatusEffect.ts:62-64 | the new field values are the `Effect` function of the old ones |
| StatusEffects.StatusEffect.IsStillActive | src/status/StatusEffect.ts:67-73 | true exactly when turns remain; when none do the effect is also switched off, otherwise nothing changes |
| StatusEffects.StatusEffect.CalculateDamage | src/status/StatusEffect.ts:76-81 | the damage per turn when active with turns left, zero otherwise |
| StatusEffects.StatusEffect.Duplicate | src/status/StatusEffect.ts:84-86 | a fresh object holding the same values |
| FighterStates.Variant.Reset | src/fighters/Paladin.ts:39-42 | the same class with its ability counters cleared |
| FighterStates.CountActive | src/fighters/BaseFighter.ts:108-112 | the number of effects of a kind in force; zero exactly when none is |
| FighterStates.FirstActive | src/fighters/BaseFighter.ts:115-124 | the index of the first effect of a kind in force, or none when there is none |
| FighterStates.TickEffect | src/fighters/BaseFighter.ts:139-152 | an active non-stun effect loses one turn and is switched off when none remain; other effects are untouched |
| FighterStates.TickDamage | src/fighters/BaseFighter.ts:139-145 | the damage one entry adds to a status pass: its current damage when active and not a stun, else zero |
| FighterStates.Ticked | src/fighters/BaseFighter.ts:138-153 | every entry ticked in place, in the same order |
| FighterStates.ActiveOnly | src/fighters/BaseFighter.ts:155-157 | every kept entry is active and from the list, and every active entry is kept |
| FighterStates.DamageSum | src/fighters/BaseFighter.ts:136-153 | the total a status pass adds up, entry by entry; no contract of its own: `FighterLaws.DamageSumNonNegative` proves it non-negative when no entry has negative damage, and `FighterLaws.FireArrowsThenTick` evaluates it on a single burn |
| FighterLaws.ActiveOnlyAppend | src/fighters/BaseFighter.ts:155-157 | the filter of a concatenation is the concatenation of the filters, so order and multiplicity are kept |
| FighterLaws.ActiveOnlySingle | src/fighters/BaseFighter.ts:155-157 | a single entry is kept exactly when it is in force |
| FighterStates.FighterState.SufferDamage | src/fighters/BaseFighter.ts:55-59 | only health changes; it drops by the clamped amount and stops at zero; a non-positive amount changes nothing |
| FighterStates.FighterState.RestoreHealth | src/fighters/BaseFighter.ts:167-169 | only health changes; it rises by the amount but never above the maximum |
| FighterStates.FighterState.ApplyStatus | src/fighters/BaseFighter.ts:91-105 | a freeze merges into the freeze in force, if any; every other effect is appended; a Sorcerer ignores freezes |
| FighterStates.FighterState.RemoveStatus | src/fighters/BaseFighter.ts:115-124 | the first effect of the kind in force is cut out and the rest keep their order; nothing changes when there is none |
| FighterStates.FighterState.ClearAllStatuses | src/fighters/BaseFighter.ts:127-132 | the status list is empty and nothing else changes |
| FighterStates.FighterState.ProcessStatusEffects | src/fighters/BaseFighter.ts:135-164 | effects are ticked and the inactive ones dropped; a positive total is subtracted once, floored at zero |
| FighterStates.FighterState.ResetForNewBattle | src/fighters/BaseFighter.ts:177-180 | statuses and ice arrows are cleared and the class counters reset; health and strength are kept |
| FighterStates.FighterState.Alive | src/fighters/BaseFighter.ts:38-40 | health above zero; no contract of its own: `FighterStates.FighterState.SufferDamage` ensures that damage at least the health leaves exactly zero, and `TournamentLaws.BattleWinner` that the named winner is dead only when both fighters are |
| FighterStates.FighterState.Valid | src/fighters/BaseFighter.ts:55-59 | health in [0, maxHealth], at most one ice arrow used, at most one freeze in force and the Ranger's ice shots in range; no contract of its own: `FighterLaws.SufferDamageKeepsValid`, `FighterLaws.ApplyStatusKeepsValid`, `FighterLaws.ProcessStatusEffectsKeepsValid` and `TournamentLaws.RoundsKeepValid` prove every operation up to a whole tournament keeps it |
| FighterStates.FighterState.HasStatus | src/fighters/BaseFighter.ts:108-112 | some effect of the kind is in force; no contract of its own: `FighterLaws.HasStatusIffCount` proves it holds exactly when the count of that kind in force is positive |
| FighterStates.FighterState.CanUseIceArrows | src/fighters/BaseFighter.ts:67-69 | fewer than the one ice arrow per battle used; no contract of its own: `FighterLaws.IceArrowsOncePerBattle` proves it false after the first shot and `FighterLaws.ResetLaws` true again after a reset |
| FighterStates.FighterState.CanExecuteAbility | src/fighters/Ranger.ts:28-30 | the Paladin until its strike (Paladin.ts:19-21), the Ranger while fire arrows or an ice shot remain, the Sorcerer always (Sorcerer.ts:20-22); no contract of its own: `FighterLaws.PaladinRetribution`, `FighterLaws.RangerSequence` and `FighterLaws.SorcererCharm` prove when it holds and when it stops |
| FighterStates.FighterState.AbilityName | src/fighters/Ranger.ts:18-26 | the class's ability name; no contract of its own: `FighterLaws.RangerSequence` proves the Ranger names fire arrows first, then ice arrows while shots remain, then fire arrows again |
| FighterStates.PerformAttack | src/fighters/BaseFighter.ts:48-52 | the plain attack on values; no contract of its own: `FighterLaws.PerformAttackLaws` proves it reports the strength, leaves the attacker alone and lowers the target's health by the strength or to zero |
| FighterStates.UseIceArrows | src/fighters/BaseFighter.ts:72-88 | the shared ice arrows on values; no contract of its own: `FighterLaws.IceArrowsOncePerBattle` proves the first use deals strength and freezes for 3 turns at 2 damage, and every later use in the battle is a plain attack |
| FighterStates.RetributionDamage | src/fighters/Paladin.ts:30-32 | strength plus the integer bonus; no contract of its own: `FighterLaws.RetributionBonusIsFloor` proves the bonus is the floor of thirty per cent, and `FighterLaws.PaladinExample` that strength 10 deals 13 |
| FighterStates.ShootFireArrows | src/fighters/Ranger.ts:44-51 | the Ranger's fire arrows on values; no contract of its own: `FighterLaws.RangerSequence` and `FighterLaws.FireArrowsThenTick` prove they deal 0 at once and burn the target on its next pass |
| FighterStates.ShootIceArrows | src/fighters/Ranger.ts:53-64 | the Ranger's ice shot on values; no contract of its own: `FighterLaws.IceShot` proves it is the ability once fire arrows are spent, and `FighterLaws.TwoIceShotsStack` that two shots leave one freeze with twice the damage |
| FighterStates.ExecuteAbility | src/fighters/Paladin.ts:23-37 | each class's ability (Ranger.ts:32-42, Sorcerer.ts:24-29); no contract of its own: `FighterLaws.PaladinRetribution`, `FighterLaws.RangerSequence` and `FighterLaws.SorcererCharm` prove each class's result, and `FighterLaws.ExecuteAbilityOwnState` that no ability harms its user |
| FighterLaws.HasStatusIffCount | src/fighters/BaseFighter.ts:108-112 | a fighter has a status exactly when the count of that kind in force is positive |
| FighterLaws.CountActiveTicked | src/fighters/BaseFighter.ts:138-153 | ticking never adds an effect in force and keeps every stun |
| FighterLaws.DamageSumNonNegative | src/fighters/BaseFighter.ts:135-164 | with non-negative damages the pass's total is non-negative |
| FighterLaws.ProcessStatusEffectsLaws | src/fighters/BaseFighter.ts:135-164 | after a pass every effect left is active and every non-stun has turns left; stuns are untouched, no count grows, health does not rise |
| FighterLaws.OneTurnEffectsExpire | src/fighters/BaseFighter.ts:135-164 | effects of a kind with at most one turn left are gone after one pass |
| FighterLaws.ApplyStatusKeepsValid | src/fighters/BaseFighter.ts:91-105 | applying any effect keeps at most one freeze in force |
| FighterLaws.FreezeStacks | src/fighters/BaseFighter.ts:91-105 | two freezes give exactly one in force, with summed damage and the longer duration |
| FighterLaws.FreezeStackDamage | src/__tests__/freeze-stack.test.ts:4-15 | two freezes of 3 turns and 2 damage on a fresh Paladin make the next pass deal 4 |
| FighterLaws.RemoveStatusLaws | src/fighters/BaseFighter.ts:115-124 | removal lowers that kind's count by one and shortens the list by one; other kinds are unchanged and the invariant is kept |
| FighterLaws.ProcessStatusEffectsKeepsValid | src/fighters/BaseFighter.ts:135-164 | a status pass keeps the fighter invariant |
| FighterLaws.ResetLaws | src/fighters/BaseFighter.ts:177-180 | after a reset the fighter is valid, can use ice arrows and its ability, and has no effect; health is kept |
| FighterLaws.SufferDamageKeepsValid | src/fighters/BaseFighter.ts:55-59 | damage keeps the invariant and never raises health |
| FighterLaws.RestoreHealthKeepsValid | src/fighters/BaseFighter.ts:167-169 | a non-negative heal keeps health in range and never lowers it |
| FighterLaws.RestoreHealthNegative | src/fighters/BaseFighter.ts:167-169 | an unguarded negative heal larger than the health pushes it below zero |
| FighterLaws.PerformAttackKeepsValid | src/fighters/BaseFighter.ts:48-52 | a plain attack keeps both fighters valid |
| FighterLaws.UseIceArrowsKeepsValid | src/fighters/BaseFighter.ts:72-88 | ice arrows keep both fighters valid |
| FighterLaws.ExecuteAbilityKeepsValid | src/fighters/Ranger.ts:32-42 | every class ability keeps both fighters valid |
| FighterLaws.PerformAttackLaws | src/fighters/BaseFighter.ts:48-52 | the reported damage is the strength; the target's health drops by it or to zero; statuses are untouched |
| FighterLaws.IceArrowsOncePerBattle | src/fighters/BaseFighter.ts:62-88 | the first shot deals strength and freezes; after it the shot is a plain attack |
| FighterLaws.ExecuteAbilityOwnState | src/fighters/Paladin.ts:23-37 | no ability changes its user's health, statuses or ice arrows, nor the target's strength or class |
| FighterLaws.RetributionBonusIsFloor | src/fighters/Paladin.ts:30-32 | the integer bonus is the floor of thirty per cent of the strength |
| FighterLaws.PaladinRetribution | src/fighters/Paladin.ts:19-42 | the first strike deals strength plus the bonus; afterwards it is a plain attack until a reset |
| FighterLaws.PaladinExample | src/__tests__/paladin.test.ts:3-11 | strength 10 deals 13 and leaves the target at 87 |
| FighterLaws.RangerSequence | src/fighters/Ranger.ts:18-70 | fire arrows first, then two ice shots, then plain attacks; the ability name follows; reset restores the cycle |
| FighterLaws.FireArrowsThenTick | src/__tests__/ranger-fire-arrows.test.ts:4-14 | fire arrows deal 0 at once, and the next pass on a clean target deals 2 |
| FighterLaws.TwoIceShotsStack | src/fighters/Ranger.ts:53-64 | two ice shots leave one freeze in force with twice the per-shot damage |
| FighterLaws.IceShot | src/fighters/Ranger.ts:32-42 | once fire arrows are spent and an ice shot remains, the ability is the ice shot |
| FighterLaws.SorcererCharm | src/fighters/Sorcerer.ts:20-29 | the charm is always available, deals 0 and appends one stun |
| FighterLaws.SorcererImmuneToFreeze | src/fighters/Sorcerer.ts:31-37 | a Sorcerer drops every freeze and takes every other effect by the shared rule |
| FighterLaws.StunsAccumulate | src/fighters/Sorcerer.ts:24-29 | n charms add n stun entries in force and leave health unchanged |
| FighterLaws.Charm | src/fighters/Sorcerer.ts:24-29 | one charm leaves the target as it was with one active stun of the charm's length appended |
| FighterLaws.CharmedAppends | src/fighters/Sorcerer.ts:24-29 | n charms leave the target as it was with n such stuns appended, in order |
| Fighters.Fighter.constructor | src/fighters/BaseFighter.ts:13-18 | full health, no effects, nothing used |
| Fighters.Fighter.IsAlive | src/fighters/BaseFighter.ts:38-40 | holds exactly when the value predicate does on the fighter's current fields |
| Fighters.Fighter.CanUseIceArrows | src/fighters/BaseFighter.ts:67-69 | holds exactly when the value predicate does on the fighter's current fields |
| Fighters.Fighter.HasStatus | src/fighters/BaseFighter.ts:108-112 | holds exactly when the value predicate does on the fighter's current fields |
| Fighters.Fighter.CanExecuteAbility | src/fighters/Paladin.ts:19-21 | holds exactly when the value predicate does on the fighter's current fields, for every class |
| Fighters.Fighter.PerformAttack | src/fighters/BaseFighter.ts:48-52 | returns the strength; the target's new state is the value function's |
| Fighters.Fighter.SufferDamage | src/fighters/BaseFighter.ts:55-59 | returns the clamped amount; the new state is the value function's |
| Fighters.Fighter.UseIceArrows | src/fighters/BaseFighter.ts:72-88 | both new states and the damage are those of the value function |
| Fighters.Fighter.ApplyStatus | src/fighters/BaseFighter.ts:91-105 | the new status list is the value function's, Sorcerer override included |
| Fighters.Fighter.RemoveStatus | src/fighters/BaseFighter.ts:115-124 | the new state is the value function's |
| Fighters.Fighter.ClearAllStatuses | src/fighters/BaseFighter.ts:127-132 | the new state is the value function's |
| Fighters.Fighter.ProcessStatusEffects | src/fighters/BaseFighter.ts:135-164 | the in-place loop returns the pass's total and leaves the value function's state |
| Fighters.Fighter.RestoreHealth | src/fighters/BaseFighter.ts:167-169 | the new state is the value function's |
| Fighters.Fighter.ResetForNewBattle | src/fighters/Ranger.ts:66-70 | the new state is the value function's, each class's counters included |
| Fighters.Fighter.GetAbilityName | src/fighters/Ranger.ts:18-26 | the Ranger names ice arrows exactly after its fire arrows while ice shots remain; each other class has its fixed name |
| Fighters.Fighter.ExecuteAbility | src/fighters/Paladin.ts:23-37 | both new states and the damage are those of the value function |
| Fighters.Fighter.ShootFireArrows | src/fighters/Ranger.ts:44-51 | both new states and the damage are those of the value function |
| Fighters.Fighter.ShootIceArrows | src/fighters/Ranger.ts:53-64 | both new states and the damage are those of the value function |
| Fighters.Fighter.HealAndRemoveEffects | src/fighters/Sorcerer.ts:39-41 | every effect is removed and health is unchanged |
| Shuffles.ScaledIndex | src/engine/GameEngine.ts:177 | the floor of the draw times the length: an index below the length |
| Shuffles.Swap | src/engine/GameEngine.ts:178-180 | the two slots exchanged, every other slot and the length kept |
| Shuffles.ShuffleFrom | src/engine/GameEngine.ts:176-181 | the Fisher–Yates passes from position i down to 1, keeping the length; `Shuffles.ShuffleFromPermutes` proves each pass keeps every multiplicity |
| Shuffles.SwapAt | src/engine/GameEngine.ts:178-180 | the array afterwards is the old one with the two slots exchanged |
| Shuffles.ShuffleInPlace | src/engine/GameEngine.ts:174-183 | the array afterwards is the Fisher–Yates function of the old one, and one draw is read per position from the last down to 1 |
| Shuffles.RandomizeArray | src/engine/GameEngine.ts:174-183 | the shuffle of a copy; the input is untouched |
| Shuffles.Shuffle | src/engine/GameEngine.ts:174-183 | the shuffle of a list keeps its length; `Shuffles.ShufflePermutes`, `Shuffles.ShuffledRange` and `Shuffles.ShuffleIsSelect` prove it is a permutation |
| Shuffles.ShufflePermutes | src/engine/GameEngine.ts:174-183 | the shuffle is a permutation: every entry keeps its multiplicity |
| Shuffles.ShuffledRange | src/engine/GameEngine.ts:174-183 | the shuffled positions are distinct and in range |
| Shuffles.ShuffleIsSelect | src/engine/GameEngine.ts:60 | shuffling a roster equals picking it at the shuffled positions |
| Shuffles.CountShuffle | src/engine/GameEngine.ts:174-183 | shuffling keeps the count of entries with any property |
| Shuffles.CountPairs | src/engine/GameEngine.ts:62-65 | a list of 2m entries with no pair of consecutive entries both marked has at most m marked, exactly m when every pair has one |
| Tournaments.CheckCount | src/engine/GameEngine.ts:19-26 | an odd count fails first, then a count below 2; every other count passes |
| Tournaments.Duel.Seat | src/engine/GameEngine.ts:77-78 | the duel with the active and passive fighters replaced |
| Tournaments.Duel.Swapped | src/engine/GameEngine.ts:144-146 | the active and passive roles are exchanged |
| Tournaments.Duel.TickBoth | src/engine/GameEngine.ts:81-82 | the status pass of fighter1, then of fighter2 |
| Tournaments.ChooseAction | src/engine/GameEngine.ts:106-137 | a special only below the threshold and when available; a second draw exactly when both specials are available |
| Tournaments.Perform | src/engine/GameEngine.ts:113-137 | the chosen action on values; no contract of its own: `TournamentLaws.PerformKeepsValid` proves it keeps both fighters valid, and `TournamentLaws.DoubleKnockOutIsTick` that it never harms the fighter who acts |
| Tournaments.Turn | src/engine/GameEngine.ts:81-146 | one pass of the battle loop; no contract of its own: `TournamentLaws.StunnedTurn` proves a stunned fighter loses one stun and its turn, `TournamentLaws.HighDrawsAttack` that high draws give a plain attack, `TournamentLaws.TurnKeepsValid` that the pass keeps both fighters valid, and `TournamentLaws.DoubleKnockOutIsTick` that a double death happens in the status pass |
| Tournaments.Run | src/engine/GameEngine.ts:80-147 | a finished run has at most one fighter alive |
| Tournaments.RunStep | src/engine/GameEngine.ts:80-147 | the one-pass equation of the loop, an unfolding helper: a battle still going on with fuel left is one turn followed by the rest of the loop |
| Tournaments.LastTurn | src/engine/GameEngine.ts:80-147 | the pass that ended a finished battle started with both fighters alive and produced the final duel |
| Tournaments.Opening | src/engine/GameEngine.ts:77-78 | fighter1 acts first exactly when the first draw is below one half |
| Tournaments.Battle | src/engine/GameEngine.ts:74-151 | the loop run from the opening; no contract of its own: `TournamentLaws.BattleWinner` proves the named winner is alive unless both are dead, `TournamentLaws.RunKeepsValid` that both fighters end valid, and `TournamentLaws.PlainBattle` that plain fighters always finish with one survivor |
| Tournaments.Winner | src/engine/GameEngine.ts:149 | fighter1 if alive, else fighter2 |
| Tournaments.PlayPairs | src/engine/GameEngine.ts:67-71 | the pairs fight in order and each result is written back; the roster keeps its size |
| Tournaments.PlayPairsLaws | src/engine/GameEngine.ts:67-71 | fighters outside the remaining pairs are untouched, and no remaining pair has both fighters alive |
| Tournaments.PlayPairsNext | src/engine/GameEngine.ts:67-71 | a finished series of battles from pair p played pair p first, wrote both fighters back and went on from the draws it left |
| Tournaments.AliveFighters | src/engine/GameEngine.ts:44-46 | exactly the alive fighters, as many as the alive count |
| Tournaments.AliveFightersAppend | src/engine/GameEngine.ts:44-46 | the filter of a concatenation is the concatenation of the filters, so survivors keep roster order and multiplicity |
| Tournaments.AliveFightersSingle | src/engine/GameEngine.ts:44-46 | a single fighter is kept exactly when it is alive |
| Tournaments.ResetAll | src/engine/GameEngine.ts:48-50 | every fighter reset, in the same order |
| Tournaments.RoundBound | src/engine/GameEngine.ts:59-72 | at most half the roster is alive after a round, exactly half when every pair has a survivor |
| Tournaments.RoundBattles | src/engine/GameEngine.ts:59-71 | the battles of a round keep the roster's size; `Tournaments.RoundHalves` proves at most half stay alive and `Tournaments.RoundBattlesPairs` that the pairs are the shuffled positions, played in order |
| Tournaments.RoundHalves | src/engine/GameEngine.ts:59-72 | the battles of a round leave at most half the roster alive |
| Tournaments.RoundBattlesPairs | src/engine/GameEngine.ts:59-72 | a round's battles are the pairs of shuffled positions, played in order after the shuffle's draws |
| Tournaments.PlayRound | src/engine/GameEngine.ts:39-50 | the counter rises by one, at most half the roster stays, and every fighter kept is alive |
| Tournaments.Rounds | src/engine/GameEngine.ts:38-56 | success leaves exactly one fighter, alive when at least one round was played; failure is only an odd roster or no champion |
| Tournaments.NextRounds | src/engine/GameEngine.ts:38-47 | a tournament of two or more plays one round and carries on: success leaves exactly one fighter, alive, and never an earlier round number; failure is an odd roster or no champion |
| Tournaments.RoundsStep | src/engine/GameEngine.ts:38-51 | an unfinished tournament plays its next round, which shrinks the roster |
| Tournaments.Tournament | src/engine/GameEngine.ts:33-57 | an empty roster is refused; success leaves one fighter, alive when the roster had two or more |
| Engine.GameEngine.constructor | src/engine/GameEngine.ts:14-17 | empty roster, round 0, no draw read, the given source |
| Engine.GameEngine.NextDraw | src/engine/GameEngine.ts:12 | returns the next draw and advances the count by one |
| Engine.GameEngine.InitializeTournament | src/engine/GameEngine.ts:19-31 | the outcome is the size check; on failure nothing changes; on success the roster is the generated one and four draws per fighter are read |
| Engine.GameEngine.HandleStatusEffects | src/engine/GameEngine.ts:153-172 | the fighter's new state is its status pass |
| Engine.GameEngine.Act | src/engine/GameEngine.ts:106-137 | both new states, the damage and the draws read are those of the chosen action |
| Engine.GameEngine.PlayTurn | src/engine/GameEngine.ts:81-146 | the new fighters, roles and draw count are those of one turn; a stop means someone died |
| Engine.GameEngine.PlayCountedTurn | src/engine/GameEngine.ts:81-146 | the rest of the battle from the new state ends as it would have from the old |
| Engine.GameEngine.RunBattle | src/engine/GameEngine.ts:74-151 | both fighters and the draw count end as the battle function says; the winner is fighter1 if alive, else fighter2 |
| Engine.GameEngine.ProcessRound | src/engine/GameEngine.ts:59-72 | the roster's fighters end as the round's battles say; the roster list itself is unchanged |
| Engine.GameEngine.DrawPairs | src/engine/GameEngine.ts:60-65 | the pairs are the fighters at shuffled positions 2q and 2q+1, and the draw count rises by the shuffle's draws |
| Engine.GameEngine.PlayBattles | src/engine/GameEngine.ts:67-71 | each pair's battle in order, with the final values of the pairs function |
| Engine.GameEngine.PlayPair | src/engine/GameEngine.ts:67-71 | one battle of two distinct roster fighters writes both results back, leaves every other fighter alone and reads the battle function's draws |
| Engine.GameEngine.AdvanceRound | src/engine/GameEngine.ts:39-50 | the engine's new state is one round of the tournament function |
| Engine.GameEngine.KeepSurvivors | src/engine/GameEngine.ts:44-50 | the roster becomes its alive fighters, in order, each reset |
| Engine.GameEngine.DropDefeated | src/engine/GameEngine.ts:44-46 | the roster becomes its alive fighters, in order |
| Engine.GameEngine.ResetRoster | src/engine/GameEngine.ts:48-50 | every fighter of the roster is reset |
| Engine.GameEngine.RunTournament | src/engine/GameEngine.ts:33-57 | the result and the final state are those of the tournament function; a champion is the only fighter left, and alive when the roster had two or more |
| Engine.GameEngine.GetAliveCount | src/engine/GameEngine.ts:185-189 | the number of alive fighters of the roster |
| Engine.ShuffledPairs | src/engine/GameEngine.ts:60-65 | pair q is the fighters at shuffled positions 2q and 2q+1 |
| Engine.Pairs | src/engine/GameEngine.ts:62-65 | consecutive pairs of the list, half as many as its entries |
| Engine.SurvivorsValues | src/engine/GameEngine.ts:44-46 | filtering references equals filtering their values |
| Engine.Survivors | src/engine/GameEngine.ts:44-46 | every fighter kept is from the roster, and a roster without repeats gives one; `Engine.SurvivorsValues` proves its values are exactly the alive fighters' values, in order |
| TournamentLaws.StunnedTurn | src/engine/GameEngine.ts:95-104 | a stunned fighter loses one stun and its turn; no draw is read and its other effects stay |
| TournamentLaws.HighDrawsAttack | src/engine/GameEngine.ts:106-146 | with no draw below one half, a fighter free to act makes a plain attack with one draw |
| TournamentLaws.DoubleKnockOutIsTick | src/engine/GameEngine.ts:81-93 | a turn leaving both dead had both die in the status pass |
| TournamentLaws.BattleWinner | src/engine/GameEngine.ts:80-149 | the named winner is dead exactly when both fighters are, and then both died in the status pass of the last turn |
| TournamentLaws.DoubleKnockOut | src/engine/GameEngine.ts:80-93 | two burning fighters die in the same pass, and the dead fighter2 is named winner |
| TournamentLaws.StunsTickToThemselves | src/fighters/BaseFighter.ts:135-164 | a pass over stuns alone changes nothing and deals nothing |
| TournamentLaws.StunLockTurn | src/engine/GameEngine.ts:95-117 | with every draw low, a turn of two stun-only Sorcerers leaves two stun-only Sorcerers |
| TournamentLaws.StunLockNeverEnds | src/engine/GameEngine.ts:80-147 | two such Sorcerers never finish, whatever the fuel |
| TournamentLaws.SorcererStalemate | src/engine/GameEngine.ts:74-151 | a battle of two clean live Sorcerers does not end when every draw is low |
| TournamentLaws.PlainTurn | src/engine/GameEngine.ts:80-146 | a turn of plain fighters changes only health, and the total health drops |
| TournamentLaws.PlainRunEnds | src/engine/GameEngine.ts:80-147 | plain fighters finish within more passes than their total health, with exactly one alive |
| TournamentLaws.PlainBattle | src/__tests__/engine-logic.test.ts:10-19 | under the constant source 0.5 a battle of plain fighters ends with a live winner |
| TournamentLaws.PlainPairs | src/engine/GameEngine.ts:67-71 | plain battles of live pairs each leave exactly one fighter alive |
| TournamentLaws.SurvivorExtends | src/engine/GameEngine.ts:67-71 | when pair p left a survivor and the later battles do not touch it, every pair from p on has a survivor |
| TournamentLaws.PlainRound | src/engine/GameEngine.ts:39-50 | a round of plain live fighters halves the roster exactly |
| TournamentLaws.PowerOfTwoChampion | src/engine/GameEngine.ts:38-56 | 2^k plain live fighters yield one live champion after exactly k rounds |
| TournamentLaws.TournamentOfPowerOfTwo | src/__tests__/engine-logic.test.ts:10-30 | the whole tournament of 2, 4, 8 ... plain fighters under the constant source 0.5 crowns a live champion |
| TournamentLaws.OddRosterAfter | src/engine/GameEngine.ts:59-65 | 2^k·m plain live fighters with m odd and above one reach an odd roster that cannot be paired |
| TournamentLaws.SixFighters | src/engine/GameEngine.ts:19-26 | six fighters pass the size check but the second round finds three |
| TournamentLaws.PerformKeepsValid | src/engine/GameEngine.ts:106-137 | every action the engine can choose keeps both fighters valid |
| TournamentLaws.SeatKeepsValid | src/engine/GameEngine.ts:144-146 | writing two valid fighters back into a duel, with or without the role swap, keeps it valid |
| TournamentLaws.TurnKeepsValid | src/engine/GameEngine.ts:81-146 | one pass of the battle loop keeps both fighters' health in range and at most one freeze in force |
| TournamentLaws.RunKeepsValid | src/engine/GameEngine.ts:80-147 | a finished battle leaves both fighters valid |
| TournamentLaws.PlayPairsKeepsValid | src/engine/GameEngine.ts:67-71 | the battles of a round keep every fighter of the roster valid |
| TournamentLaws.PlayRoundKeepsValid | src/engine/GameEngine.ts:39-50 | a round, with its filter and reset, keeps every fighter valid |
| TournamentLaws.RoundsKeepValid | src/engine/GameEngine.ts:38-51 | every fighter of a successful tournament's final roster, the champion, is valid |

## Left out

- Narration: the event recorder and every message the engine and fighters record have no
  counterpart. The status pass the engine narrates is modelled without its messages.
- The fighter generator (`FighterGenerator`, with names and class choice) is not part of
  this model. `InitializeTournament` takes the generated roster as a parameter and
  advances the draw count by four per fighter: class, name, health and strength.
- Names, `getInfo`, `getClassType` and the Ranger's `getAbilityStatus` are display only
  and are not modelled.
- The retaliation effect kind is declared by the source but never created, so it is left out.
- Fighters.Fighter.UseIceArrows: the model requires the target to be another fighter. The
  source never aims a fighter at itself, and self-targeting is not modelled.
- Fighters.Fighter.ExecuteAbility: requires the target to be another fighter, as above.
- The status list is a list of effect values, not of shared objects. The source creates a
  fresh effect for every application and never hands one to two fighters, so aliasing
  between lists is not modelled.
- Floating point: the Paladin bonus `Math.floor(s * 0.3)` is modelled as `(3 * s) / 10`.
  `FighterLaws.RetributionBonusIsFloor` shows the two agree for exact reals. The rounding
  of IEEE doubles is not modelled.
- Engine.GameEngine.ProcessRound: requires an even roster. An odd roster would make the
  source call `runBattle` with an undefined fighter. The function model returns
  `Failure(OddRoster)` for it instead.
- Engine.GameEngine.RunTournament: requires that the tournament function finishes within
  the ghost fuel and never meets an odd roster.
- The partial round before the odd-roster crash is not modelled. There the source raises
  the round counter, reads the shuffle's draws and plays every complete pair before it
  throws. These changes stay on the engine and its fighters. `Tournaments.Rounds` returns
  `Failure(OddRoster)` before the round starts, so its state is the one before that round.
- The crash on an empty final roster becomes the result `Failure(NoChampion)`. The rounds
  before it are played as in the source.
- Engine.GameEngine.RunBattle: requires that the battle finishes within the ghost fuel. A
  battle need not end at all; `TournamentLaws.SorcererStalemate` shows one that never does.
- Engine.GameEngine.GetCurrentRound only reads the round counter and carries no contract.
- Exceptions: the source's thrown errors are `Fail`/`Failure` results with an
  `EngineError`.
- `Math.random` is the oracle draw source, an arbitrary function into [0, 1).
