/** A fighter as an object whose fields its methods update in place: one class for all
    three classes of fighter, with the class-specific counters in a `Variant` field.
    Every method is proved against the matching function of `FighterStates`. */
module Fighters {
  import opened Outcomes
  import opened StatusEffects
  import opened FighterStates

  class Fighter {
    var hp: int
    const maxHp: int
    const strength: int
    var statuses: seq<Effect>
    var iceArrowsUsed: int
    var variant: Variant

    function Value(): FighterState
      reads this
    {
      FighterState(hp, maxHp, strength, statuses, iceArrowsUsed, variant)
    }

    /** A fresh fighter of the class `kind` names, at full health, with nothing used yet. */
    constructor (health: int, strength: int, kind: Variant)
      ensures Value() == FighterState(health, health, strength, [], 0, kind.Reset())
    {
      hp := health;
      maxHp := health;
      this.strength := strength;
      statuses := [];
      iceArrowsUsed := 0;
      variant := kind.Reset();
    }

    predicate IsAlive()
      reads this
      ensures IsAlive() <==> Value().Alive()
    {
      hp > 0
    }

    method PerformAttack(target: Fighter) returns (damage: int)
      modifies target
      ensures damage == strength
      ensures target.Value() == old(target.Value()).SufferDamage(strength)
    {
      damage := strength;
      var suffered := target.SufferDamage(damage);
    }

    /** Reports the clamped amount, not the health actually lost. */
    method SufferDamage(amount: int) returns (dealt: int)
      modifies this
      ensures dealt == Max0(amount)
      ensures Value() == old(Value()).SufferDamage(amount)
    {
      dealt := Max0(amount);
      hp := Max0(hp - dealt);
    }

    predicate CanUseIceArrows()
      reads this
      ensures CanUseIceArrows() <==> Value().CanUseIceArrows()
    {
      iceArrowsUsed < IceArrowsPerBattle
    }

    method UseIceArrows(target: Fighter) returns (damage: int)
      requires target != this
      modifies this, target
      ensures var x := FighterStates.UseIceArrows(old(Value()), old(target.Value()));
        Value() == x.attacker && target.Value() == x.target && damage == x.damage
    {
      if !CanUseIceArrows() {
        damage := PerformAttack(target);
        return;
      }
      iceArrowsUsed := iceArrowsUsed + 1;
      var directDamage := strength;
      var suffered := target.SufferDamage(directDamage);
      var freeze := new StatusEffect(Freeze, BaseFreezeTurns, BaseFreezeDamage);
      target.ApplyStatus(freeze);
      damage := directDamage;
    }

    /** Includes the Sorcerer's override, which drops every freeze. */
    method ApplyStatus(effect: StatusEffect)
      modifies this
      ensures Value() == old(Value()).ApplyStatus(effect.Value())
    {
      var e := effect.Value();
      if variant.Sorcerer? && e.kind == Freeze {
        return;
      }
      if e.kind == Freeze {
        var existing := FirstActive(statuses, Freeze);
        if existing.Some? {
          var i := existing.value;
          statuses := statuses[i := statuses[i].IncrementDamage(e.damagePerTurn).SetMaximumDuration(e.remainingTurns)];
          return;
        }
      }
      statuses := statuses + [e];
    }

    predicate HasStatus(k: Kind)
      reads this
      ensures HasStatus(k) <==> Value().HasStatus(k)
    {
      exists i :: 0 <= i < |statuses| && Matches(statuses[i], k)
    }

    /** The entry found is also switched off in the source; once it is out of the list that
        is not observable. */
    method RemoveStatus(k: Kind)
      modifies this
      ensures Value() == old(Value()).RemoveStatus(k)
    {
      var index := FirstActive(statuses, k);
      if index.Some? {
        var i := index.value;
        statuses := statuses[..i] + statuses[i + 1..];
      }
    }

    method ClearAllStatuses()
      modifies this
      ensures Value() == old(Value()).ClearAllStatuses()
    {
      statuses := [];
    }

    /** The status pass: tick every effect in place and add up its damage, drop the
        inactive entries, then subtract the total once. */
    method ProcessStatusEffects() returns (accumulated: int)
      modifies this
      ensures accumulated == old(Value()).StatusDamage()
      ensures Value() == old(Value()).ProcessStatusEffects()
    {
      accumulated := 0;
      ghost var before := statuses;
      for i := 0 to |statuses|
        invariant |statuses| == |before|
        invariant statuses == Ticked(before[..i]) + before[i..]
        invariant accumulated == DamageSum(before[..i])
        invariant hp == old(hp) && iceArrowsUsed == old(iceArrowsUsed) && variant == old(variant)
      {
        TickStep(before, i);
        TickInPlace(before, i, statuses);
        var effect := statuses[i];
        if effect.isActive {
          if effect.kind == Stun {
            assert statuses[i := before[i]] == statuses;
            continue;
          }
          accumulated := accumulated + effect.CalculateDamage();
          effect := effect.DecrementTurns();
          if effect.remainingTurns <= 0 {
            effect := effect.Deactivate();
          }
          assert effect == TickEffect(before[i]);
          statuses := statuses[i := effect];
        } else {
          assert statuses[i := before[i]] == statuses;
        }
      }
      assert before[..|before|] == before;
      assert statuses == Ticked(before);
      assert accumulated == DamageSum(before);
      statuses := ActiveOnly(statuses);
      if accumulated > 0 {
        hp := Max0(hp - accumulated);
      }
    }

    /** No guard against a negative amount, as in the source. */
    method RestoreHealth(amount: int)
      modifies this
      ensures Value() == old(Value()).RestoreHealth(amount)
    {
      hp := if hp + amount < maxHp then hp + amount else maxHp;
    }

    /** The shared reset plus each class's own counters; health is kept. */
    method ResetForNewBattle()
      modifies this
      ensures Value() == old(Value()).ResetForNewBattle()
    {
      statuses := [];
      iceArrowsUsed := 0;
      variant := variant.Reset();
    }

    predicate CanExecuteAbility()
      reads this
      ensures CanExecuteAbility() <==> Value().CanExecuteAbility()
    {
      match variant
      case Paladin(executed) => !executed
      case Ranger(fireUsed, ice) => !fireUsed || ice < RangerMaxIceArrows
      case Sorcerer => true
    }

    function GetAbilityName(): (name: Ability)
      reads this
      ensures variant.Ranger? ==>
        (name == IceArrows <==> variant.fireArrowsUsed && variant.iceArrowsCount < RangerMaxIceArrows)
      ensures variant.Ranger? ==> name == FireArrows || name == IceArrows
      ensures variant.Paladin? ==> name == RetributionStrike
      ensures variant.Sorcerer? ==> name == Charm
    {
      Value().AbilityName()
    }

    /** The class ability; a spent ability falls back to a plain attack. */
    method ExecuteAbility(target: Fighter) returns (damage: int)
      requires target != this
      modifies this, target
      ensures var x := FighterStates.ExecuteAbility(old(Value()), old(target.Value()));
        Value() == x.attacker && target.Value() == x.target && damage == x.damage
    {
      match variant {
        case Paladin(executed) =>
          if executed {
            damage := PerformAttack(target);
            return;
          }
          variant := Paladin(true);
          var baseDamage := strength;
          var extraDamage := (3 * baseDamage) / 10;
          var totalDamage := baseDamage + extraDamage;
          var suffered := target.SufferDamage(totalDamage);
          damage := totalDamage;
        case Ranger(fireUsed, ice) =>
          if !fireUsed {
            damage := ShootFireArrows(target);
            return;
          }
          if ice < RangerMaxIceArrows {
            damage := ShootIceArrows(target);
            return;
          }
          damage := PerformAttack(target);
        case Sorcerer =>
          var stun := new StatusEffect(Stun, StunTurns, 0);
          target.ApplyStatus(stun);
          damage := 0;
      }
    }

    method ShootFireArrows(target: Fighter) returns (damage: int)
      requires variant.Ranger? && target != this
      modifies this, target
      ensures var x := FighterStates.ShootFireArrows(old(Value()), old(target.Value()));
        Value() == x.attacker && target.Value() == x.target && damage == x.damage
    {
      variant := variant.(fireArrowsUsed := true);
      var burn := new StatusEffect(Burn, BurnTurns, BurnDamage);
      target.ApplyStatus(burn);
      damage := 0;
    }

    method ShootIceArrows(target: Fighter) returns (damage: int)
      requires variant.Ranger? && target != this
      modifies this, target
      ensures var x := FighterStates.ShootIceArrows(old(Value()), old(target.Value()));
        Value() == x.attacker && target.Value() == x.target && damage == x.damage
    {
      variant := variant.(iceArrowsCount := variant.iceArrowsCount + 1);
      var directDamage := strength;
      var suffered := target.SufferDamage(directDamage);
      var freeze := new StatusEffect(Freeze, RangerFreezeTurns, strength / 2);
      target.ApplyStatus(freeze);
      damage := directDamage;
    }

    /** The Sorcerer's cleanse: it removes every effect and, despite its name, heals nothing. */
    method HealAndRemoveEffects()
      requires variant.Sorcerer?
      modifies this
      ensures Value() == old(Value()).ClearAllStatuses()
    {
      ClearAllStatuses();
    }
  }

  /** One more entry of a status pass: its tick and its damage. */
  lemma TickStep(s: seq<Effect>, i: nat)
    requires i < |s|
    ensures Ticked(s[..i + 1]) == Ticked(s[..i]) + [TickEffect(s[i])]
    ensures DamageSum(s[..i + 1]) == DamageSum(s[..i]) + TickDamage(s[i])
  {
    assert s[..i + 1][..i] == s[..i];
  }

  /** Ticking entry `i` in place extends the ticked prefix by one. */
  lemma TickInPlace(s: seq<Effect>, i: nat, current: seq<Effect>)
    requires i < |s| && current == Ticked(s[..i]) + s[i..]
    ensures current[i] == s[i]
    ensures current[i := TickEffect(s[i])] == Ticked(s[..i + 1]) + s[i + 1..]
  {
    TickStep(s, i);
    assert Ticked(s[..i + 1]) + s[i + 1..] == Ticked(s[..i]) + [TickEffect(s[i])] + s[i + 1..];
  }

  /** The values of a roster of fighters, position by position. */
  function ValuesOf(fs: seq<Fighter>): (r: seq<FighterState>)
    reads set f | f in fs
    ensures |r| == |fs|
    ensures forall i :: 0 <= i < |fs| ==> r[i] == fs[i].Value()
  {
    seq(|fs|, i requires 0 <= i < |fs| reads set f | f in fs => fs[i].Value())
  }

  /** The values of a list are fixed by its fighters' values one by one. */
  lemma ValuesOfPointwise(fs: seq<Fighter>, r: seq<FighterState>)
    requires |fs| == |r| && forall k :: 0 <= k < |fs| ==> fs[k].Value() == r[k]
    ensures ValuesOf(fs) == r
  {
  }
}
